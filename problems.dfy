/**
 * `get_random_unsolved_questions`: keep the catalogue's unsolved problems, and
 * for each requested difficulty that some unsolved problem has, pick a random
 * problem and record it under that difficulty. The pick is made among ALL
 * unsolved problems, not among those of the difficulty, as the code does. The
 * random choice is a parameter: `draw(i)` is the raw random number used on the
 * i-th requested difficulty, reduced modulo the number of candidates.
 */
module Problems {
  import opened Wrappers

  /** An entry of the catalogue's `stat_status_pairs`; a missing status is `""`. */
  datatype ApiProblem = ApiProblem(
    frontendId: int, title: string, titleSlug: string, status: string, level: int)

  /** The description recorded for a selected problem (the acceptance rate is left out). */
  datatype Selected = Selected(id: int, level: int, title: string, url: string)

  /** An item of the `selected_problems` dictionary. */
  datatype Entry = Entry(difficulty: string, info: Selected)

  datatype KeyError = KeyError(key: string)

  /**
   * The `levels` dictionary: the catalogue's numeric level of a difficulty name;
   * `None` where looking the name up raises `KeyError`.
   */
  function LevelOf(difficulty: string): (level: Option<int>)
    ensures level.Some? <==> difficulty == "Easy" || difficulty == "Medium" || difficulty == "Hard"
    ensures difficulty == "Easy" ==> level == Some(1)
    ensures difficulty == "Medium" ==> level == Some(2)
    ensures difficulty == "Hard" ==> level == Some(3)
    ensures level.Some? ==> 1 <= level.value <= 3
  {
    if difficulty == "Easy" then Some(1)
    else if difficulty == "Medium" then Some(2)
    else if difficulty == "Hard" then Some(3)
    else None
  }

  const UrlPrefix: string := "https://leetcode.com/problems/"

  /** The catalogue marks a problem the account has solved (accepted) with status `"ac"`. */
  predicate IsSolved(p: ApiProblem) {
    p.status == "ac"
  }

  /** `random.choice(candidates)` when the random source produced `raw`. */
  function Pick(candidates: seq<ApiProblem>, raw: nat): (p: ApiProblem)
    requires candidates != []
    ensures p in candidates
  {
    candidates[raw % |candidates|]
  }

  /** The problems whose status is not `"ac"` (accepted), in catalogue order. */
  function Unsolved(pairs: seq<ApiProblem>): (unsolved: seq<ApiProblem>)
    ensures forall p :: p in unsolved <==> p in pairs && !IsSolved(p)
  {
    if pairs == [] then []
    else
      var last := pairs[|pairs| - 1];
      assert pairs == pairs[..|pairs| - 1] + [last];
      Unsolved(pairs[..|pairs| - 1]) + (if !IsSolved(last) then [last] else [])
  }

  /** `diff_problems`: the unsolved problems of one level. */
  function OfLevel(unsolved: seq<ApiProblem>, level: int): (r: seq<ApiProblem>)
    ensures forall p :: p in r <==> p in unsolved && !IsSolved(p) && p.level == level
  {
    if unsolved == [] then []
    else
      var last := unsolved[|unsolved| - 1];
      assert unsolved == unsolved[..|unsolved| - 1] + [last];
      OfLevel(unsolved[..|unsolved| - 1], level)
        + (if !IsSolved(last) && last.level == level then [last] else [])
  }

  /** The problem's page: the prefix, the slug, and a closing slash. */
  function ProblemUrl(slug: string): (url: string)
    ensures |url| == |UrlPrefix| + |slug| + 1
    ensures url[..|UrlPrefix|] == UrlPrefix && url[|UrlPrefix|..|url| - 1] == slug && url[|url| - 1] == '/'
  {
    UrlPrefix + slug + "/"
  }

  function Describe(p: ApiProblem, level: int): Selected {
    Selected(p.frontendId, level, p.title, ProblemUrl(p.titleSlug))
  }

  // ---------------------------------------------------------------------------
  // The dictionary

  function KeysOf(d: seq<Entry>): set<string> {
    set e | e in d :: e.difficulty
  }

  predicate DistinctKeys(d: seq<Entry>) {
    forall i, j :: 0 <= i < j < |d| ==> d[i].difficulty != d[j].difficulty
  }

  /**
   * `d[k] = v` on a Python dictionary kept as its items in insertion order: an
   * existing key keeps its place and gets the new value; a new key goes last.
   */
  function Assign(d: seq<Entry>, k: string, v: Selected): seq<Entry> {
    if k in KeysOf(d) then
      seq(|d|, i requires 0 <= i < |d| => if d[i].difficulty == k then Entry(k, v) else d[i])
    else d + [Entry(k, v)]
  }

  /**
   * After `d[k] = v` the dictionary has key `k` with value `v` and every other item
   * unchanged and in its place; keys stay distinct.
   */
  lemma AssignFacts(d: seq<Entry>, k: string, v: Selected)
    ensures var r := Assign(d, k, v);
      && |r| == (if k in KeysOf(d) then |d| else |d| + 1)
      && (DistinctKeys(d) ==> DistinctKeys(r))
      && KeysOf(r) == KeysOf(d) + {k}
      && (forall e :: e in r ==> if e.difficulty == k then e.info == v else e in d)
      && (forall e :: e in d && e.difficulty != k ==> e in r)
      && (forall i :: 0 <= i < |d| ==> r[i].difficulty == d[i].difficulty)
  {
    var r := Assign(d, k, v);
    if k in KeysOf(d) {
      forall e | e in d ensures e.difficulty in KeysOf(r) && (e.difficulty != k ==> e in r) {
        var i :| 0 <= i < |d| && d[i] == e;
        assert r[i].difficulty == e.difficulty && r[i] in r;
      }
      var i :| 0 <= i < |d| && d[i].difficulty == k;
      assert r[i] == Entry(k, v);
    } else {
      assert r[|d|] == Entry(k, v);
      assert forall e :: e in d ==> e in r;
    }
  }

  // ---------------------------------------------------------------------------
  // The selection

  predicate AllKnown(difficulties: seq<string>) {
    forall i :: 0 <= i < |difficulties| ==> LevelOf(difficulties[i]).Some?
  }

  /** The `i`-th difficulty is the first that `levels` does not know. */
  predicate FirstUnknownAt(difficulties: seq<string>, i: int) {
    0 <= i < |difficulties| && AllKnown(difficulties[..i]) && LevelOf(difficulties[i]).None?
  }

  /** The dictionary the loop has built after the given difficulties. */
  function Selection(unsolved: seq<ApiProblem>, difficulties: seq<string>, draw: nat -> nat): seq<Entry>
    requires AllKnown(difficulties)
  {
    if difficulties == [] then []
    else
      var n := |difficulties| - 1;
      var prev := Selection(unsolved, difficulties[..n], draw);
      var difficulty := difficulties[n];
      var level := LevelOf(difficulty).value;
      var candidates := OfLevel(unsolved, level);
      if candidates == [] then prev
      else
        assert candidates[0] in unsolved;
        Assign(prev, difficulty, Describe(Pick(unsolved, draw(n)), level))
  }

  /** One more requested difficulty: the loop body. */
  lemma SelectionStep(unsolved: seq<ApiProblem>, done: seq<string>, difficulty: string, draw: nat -> nat)
    requires AllKnown(done) && LevelOf(difficulty).Some?
    ensures AllKnown(done + [difficulty])
    ensures var level := LevelOf(difficulty).value;
      Selection(unsolved, done + [difficulty], draw)
        == if OfLevel(unsolved, level) == [] then Selection(unsolved, done, draw)
           else Assign(Selection(unsolved, done, draw), difficulty, Describe(Pick(unsolved, draw(|done|)), level))
  {
    assert (done + [difficulty])[..|done|] == done;
  }

  /** `SelectionStep` for the `i`-th difficulty of the list being scanned. */
  lemma SelectionAt(unsolved: seq<ApiProblem>, difficulties: seq<string>, i: nat, draw: nat -> nat)
    requires i < |difficulties| && AllKnown(difficulties[..i]) && LevelOf(difficulties[i]).Some?
    ensures AllKnown(difficulties[..i + 1])
    ensures var level := LevelOf(difficulties[i]).value;
      Selection(unsolved, difficulties[..i + 1], draw)
        == if OfLevel(unsolved, level) == [] then Selection(unsolved, difficulties[..i], draw)
           else Assign(Selection(unsolved, difficulties[..i], draw), difficulties[i],
                       Describe(Pick(unsolved, draw(i)), level))
  {
    assert difficulties[..i + 1] == difficulties[..i] + [difficulties[i]];
    SelectionStep(unsolved, difficulties[..i], difficulties[i], draw);
  }

  /** Some unsolved problem has the level of difficulty `d`. */
  predicate Offered(unsolved: seq<ApiProblem>, d: string) {
    LevelOf(d).Some? && OfLevel(unsolved, LevelOf(d).value) != []
  }

  /** A non-empty list of known difficulties is its known prefix plus a known last one. */
  lemma SplitLast(difficulties: seq<string>)
    requires AllKnown(difficulties) && difficulties != []
    ensures var n := |difficulties| - 1;
      && difficulties == difficulties[..n] + [difficulties[n]]
      && AllKnown(difficulties[..n]) && LevelOf(difficulties[n]).Some?
  {
    var n := |difficulties| - 1;
    forall j | 0 <= j < n ensures LevelOf(difficulties[..n][j]).Some? {
      assert difficulties[..n][j] == difficulties[j];
    }
  }

  /** The keys are distinct, and they are the requested difficulties that are offered. */
  lemma {:induction false} SelectionKeys(unsolved: seq<ApiProblem>, difficulties: seq<string>, draw: nat -> nat)
    requires AllKnown(difficulties)
    ensures DistinctKeys(Selection(unsolved, difficulties, draw))
    ensures forall d :: d in KeysOf(Selection(unsolved, difficulties, draw)) <==>
      d in difficulties && Offered(unsolved, d)
  {
    if difficulties != [] {
      SplitLast(difficulties);
      var n := |difficulties| - 1;
      var prefix, last := difficulties[..n], difficulties[n];
      SelectionKeys(unsolved, prefix, draw);
      SelectionStep(unsolved, prefix, last, draw);
      var level := LevelOf(last).value;
      var candidates := OfLevel(unsolved, level);
      if candidates != [] {
        assert candidates[0] in unsolved;
        AssignFacts(Selection(unsolved, prefix, draw), last, Describe(Pick(unsolved, draw(n)), level));
      }
    }
  }

  /** Every entry carries its difficulty's level and describes an unsolved problem. */
  lemma {:induction false} SelectionEntries(unsolved: seq<ApiProblem>, difficulties: seq<string>, draw: nat -> nat)
    requires AllKnown(difficulties)
    ensures var s := Selection(unsolved, difficulties, draw);
      && (forall e :: e in s ==> LevelOf(e.difficulty).Some? && e.info.level == LevelOf(e.difficulty).value)
      && (forall e :: e in s ==> exists p :: p in unsolved && e.info == Describe(p, e.info.level))
  {
    if difficulties != [] {
      SplitLast(difficulties);
      var n := |difficulties| - 1;
      var prefix, last := difficulties[..n], difficulties[n];
      SelectionEntries(unsolved, prefix, draw);
      SelectionStep(unsolved, prefix, last, draw);
      var level := LevelOf(last).value;
      var candidates := OfLevel(unsolved, level);
      if candidates != [] {
        assert candidates[0] in unsolved;
        var chosen := Pick(unsolved, draw(n));
        var s := Assign(Selection(unsolved, prefix, draw), last, Describe(chosen, level));
        AssignFacts(Selection(unsolved, prefix, draw), last, Describe(chosen, level));
        forall e | e in s ensures exists p :: p in unsolved && e.info == Describe(p, e.info.level) {
          if e.difficulty == last {
            assert chosen in unsolved && e.info == Describe(chosen, level);
          }
        }
      }
    }
  }

  /**
   * What the selection holds: one entry per requested difficulty that some
   * unsolved problem has, carrying that difficulty's level and a problem drawn
   * from all the unsolved ones.
   */
  lemma SelectionCorrect(unsolved: seq<ApiProblem>, difficulties: seq<string>, draw: nat -> nat)
    requires AllKnown(difficulties)
    ensures var s := Selection(unsolved, difficulties, draw);
      && DistinctKeys(s)
      && (forall d :: d in KeysOf(s) <==>
            d in difficulties && exists p :: p in unsolved && !IsSolved(p) && p.level == LevelOf(d).value)
      && (forall e :: e in s ==> LevelOf(e.difficulty).Some? && e.info.level == LevelOf(e.difficulty).value)
      && (forall e :: e in s ==> exists p :: p in unsolved && e.info == Describe(p, e.info.level))
  {
    SelectionKeys(unsolved, difficulties, draw);
    SelectionEntries(unsolved, difficulties, draw);
    forall d | d in difficulties
      ensures Offered(unsolved, d) <==> exists p :: p in unsolved && !IsSolved(p) && p.level == LevelOf(d).value
    {
      var candidates := OfLevel(unsolved, LevelOf(d).value);
      if candidates != [] {
        assert candidates[0] in candidates;
      }
    }
  }

  /** `e` is the pick made for the `k`-th request, and no later request has its difficulty. */
  predicate PickedAt(unsolved: seq<ApiProblem>, difficulties: seq<string>, draw: nat -> nat, k: int, e: Entry) {
    && 0 <= k < |difficulties|
    && difficulties[k] == e.difficulty
    && (forall j :: k < j < |difficulties| ==> difficulties[j] != e.difficulty)
    && |unsolved| > 0
    && LevelOf(e.difficulty).Some?
    && e.info == Describe(Pick(unsolved, draw(k)), LevelOf(e.difficulty).value)
  }

  /** Where a difficulty is requested more than once, the last request's pick is the one kept. */
  lemma {:induction false} LastRequestWins(unsolved: seq<ApiProblem>, difficulties: seq<string>, draw: nat -> nat, e: Entry)
    requires AllKnown(difficulties)
    requires e in Selection(unsolved, difficulties, draw)
    ensures exists k :: PickedAt(unsolved, difficulties, draw, k, e)
  {
    SplitLast(difficulties);
    var n := |difficulties| - 1;
    var prefix, last := difficulties[..n], difficulties[n];
    if OfLevel(unsolved, LevelOf(last).value) != [] && e.difficulty == last {
      LastPickWins(unsolved, difficulties, draw, e);
    } else {
      EarlierEntryKept(unsolved, difficulties, draw, e);
      EntryIsOffered(unsolved, prefix, draw, e);
      LastRequestWins(unsolved, prefix, draw, e);
      var k :| PickedAt(unsolved, prefix, draw, k, e);
      PickedAtExtends(unsolved, difficulties, draw, k, e);
    }
  }

  /** An entry's difficulty is one that some unsolved problem has. */
  lemma EntryIsOffered(unsolved: seq<ApiProblem>, difficulties: seq<string>, draw: nat -> nat, e: Entry)
    requires AllKnown(difficulties)
    requires e in Selection(unsolved, difficulties, draw)
    ensures Offered(unsolved, e.difficulty)
  {
    SelectionKeys(unsolved, difficulties, draw);
    assert e.difficulty in KeysOf(Selection(unsolved, difficulties, draw));
  }

  /** When the last request has candidates, its entry holds the last pick. */
  lemma LastPickWins(unsolved: seq<ApiProblem>, difficulties: seq<string>, draw: nat -> nat, e: Entry)
    requires AllKnown(difficulties) && difficulties != []
    requires var last := difficulties[|difficulties| - 1];
      OfLevel(unsolved, LevelOf(last).value) != [] && e.difficulty == last
    requires e in Selection(unsolved, difficulties, draw)
    ensures PickedAt(unsolved, difficulties, draw, |difficulties| - 1, e)
  {
    SplitLast(difficulties);
    var n := |difficulties| - 1;
    var prefix, last := difficulties[..n], difficulties[n];
    SelectionStep(unsolved, prefix, last, draw);
    var level := LevelOf(last).value;
    var candidates := OfLevel(unsolved, level);
    assert candidates[0] in unsolved;
    AssignFacts(Selection(unsolved, prefix, draw), last, Describe(Pick(unsolved, draw(n)), level));
  }

  /** Any other entry was already there before the last request. */
  lemma EarlierEntryKept(unsolved: seq<ApiProblem>, difficulties: seq<string>, draw: nat -> nat, e: Entry)
    requires AllKnown(difficulties) && difficulties != []
    requires var last := difficulties[|difficulties| - 1];
      !(OfLevel(unsolved, LevelOf(last).value) != [] && e.difficulty == last)
    requires e in Selection(unsolved, difficulties, draw)
    ensures e in Selection(unsolved, difficulties[..|difficulties| - 1], draw)
  {
    SplitLast(difficulties);
    var n := |difficulties| - 1;
    var prefix, last := difficulties[..n], difficulties[n];
    SelectionStep(unsolved, prefix, last, draw);
    var level := LevelOf(last).value;
    var candidates := OfLevel(unsolved, level);
    if candidates != [] {
      assert candidates[0] in unsolved;
      AssignFacts(Selection(unsolved, prefix, draw), last, Describe(Pick(unsolved, draw(n)), level));
    }
  }

  /** A pick made within a prefix stays the last one for its difficulty if the next request differs. */
  lemma PickedAtExtends(unsolved: seq<ApiProblem>, difficulties: seq<string>, draw: nat -> nat, k: int, e: Entry)
    requires difficulties != []
    requires PickedAt(unsolved, difficulties[..|difficulties| - 1], draw, k, e)
    requires e.difficulty != difficulties[|difficulties| - 1]
    ensures PickedAt(unsolved, difficulties, draw, k, e)
  {
    var n := |difficulties| - 1;
    forall j | k < j < |difficulties| ensures difficulties[j] != e.difficulty {
      if j < n { assert difficulties[j] == difficulties[..n][j]; }
    }
  }

  /**
   * The pick is not held to the difficulty it is recorded under: with a Hard
   * problem listed first, an Easy request can record it.
   */
  lemma EasyEntryCanHoldHardProblem()
    ensures var hard := ApiProblem(1, "Hard one", "hard-one", "", 3);
      var easy := ApiProblem(2, "Easy one", "easy-one", "", 1);
      var s := Selection([hard, easy], ["Easy"], _ => 0);
      s == [Entry("Easy", Describe(hard, 1))] && hard.level != LevelOf("Easy").value
  {
    var hard := ApiProblem(1, "Hard one", "hard-one", "", 3);
    var easy := ApiProblem(2, "Easy one", "easy-one", "", 1);
    var unsolved := [hard, easy];
    assert ["Easy"][..0] == [];
    assert easy in OfLevel(unsolved, 1);
  }

  /** One pass of the loop body for a known difficulty: assigns a pick if it has candidates. */
  method Extend(unsolved: seq<ApiProblem>, selected: seq<Entry>, difficulty: string, level: int, raw: nat)
    returns (next: seq<Entry>)
    ensures next == if OfLevel(unsolved, level) == [] then selected
                    else Assign(selected, difficulty, Describe(Pick(unsolved, raw), level))
  {
    var diffProblems := OfLevel(unsolved, level);
    next := selected;
    if diffProblems != [] {
      assert diffProblems[0] in unsolved;
      var randomProblem := Pick(unsolved, raw);
      next := Assign(selected, difficulty, Describe(randomProblem, level));
    }
  }

  /**
   * `get_random_unsolved_questions` over the catalogue's problems: `KeyError` on
   * the first difficulty that `levels` does not know, else the selection.
   */
  method GetRandomUnsolvedQuestions(pairs: seq<ApiProblem>, difficulties: seq<string>, draw: nat -> nat)
    returns (r: Result<seq<Entry>, KeyError>)
    ensures r.Ok? <==> AllKnown(difficulties)
    ensures r.Ok? ==> r.value == Selection(Unsolved(pairs), difficulties, draw)
    ensures r.Err? ==> exists i :: FirstUnknownAt(difficulties, i) && r.error == KeyError(difficulties[i])
  {
    var unsolved := Unsolved(pairs);
    var selected: seq<Entry> := [];
    var i := 0;
    while i < |difficulties|
      invariant 0 <= i <= |difficulties|
      invariant AllKnown(difficulties[..i])
      invariant selected == Selection(unsolved, difficulties[..i], draw)
    {
      match LevelOf(difficulties[i]) {
        case None =>
          assert FirstUnknownAt(difficulties, i);
          return Err(KeyError(difficulties[i]));
        case Some(level) =>
          SelectionAt(unsolved, difficulties, i, draw);
          selected := Extend(unsolved, selected, difficulties[i], level, draw(i));
      }
      i := i + 1;
    }
    assert difficulties[..i] == difficulties;
    return Ok(selected);
  }
}
