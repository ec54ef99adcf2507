/** Test case de-duplication and scoring of IOI submissions (pysdk/agent_envs/cmd/ioi_runner.py), over reals. */
module IoiScore {
  import opened Prelude

  datatype SubTaskCase = SubTaskCase(name: string, timeLimit: real, memoryLimit: real)
  datatype RawSubTask = RawSubTask(name: string, score: real, testCaseNames: seq<string>, timeLimit: real, memoryLimit: real)
  datatype ParsedSubTask = ParsedSubTask(name: string, score: real, cases: seq<SubTaskCase>)
  datatype RunTask = RunTask(problemID: string, year: int, testCaseName: string, timeLimit: real, memoryLimitInMb: int)

  datatype JudgeResult = TimeLimitExceeded | MemoryLimitExceeded | SystemError | UnknownResult | JudgedScore(score: real) {
    function GetScore(): real { if JudgedScore? then score else 0.0 }
  }

  // ---- Building the cases ----

  function CaseOf(raw: RawSubTask, name: string): SubTaskCase {
    SubTaskCase(name, raw.timeLimit, raw.memoryLimit)
  }

  function CasesOf(raw: RawSubTask): (cs: seq<SubTaskCase>)
    ensures |cs| == |raw.testCaseNames|
  {
    seq(|raw.testCaseNames|, i requires 0 <= i < |raw.testCaseNames| => CaseOf(raw, raw.testCaseNames[i]))
  }

  function Ceil(x: real): int { -(-x).Floor }

  function RunOf(problemID: string, year: int, c: SubTaskCase): RunTask {
    RunTask(problemID, year, c.name, c.timeLimit, Ceil(c.memoryLimit / 1024.0 / 1024.0))
  }

  /** A run asks for its case, with the least whole number of megabytes that is enough. */
  ghost predicate Asks(run: RunTask, problemID: string, year: int, c: SubTaskCase) {
    && run.problemID == problemID && run.year == year && run.testCaseName == c.name && run.timeLimit == c.timeLimit
    && (run.memoryLimitInMb as real - 1.0) * 1024.0 * 1024.0 < c.memoryLimit
    && c.memoryLimit <= run.memoryLimitInMb as real * 1024.0 * 1024.0
  }

  lemma MemoryIsEnough(problemID: string, year: int, c: SubTaskCase)
    ensures Asks(RunOf(problemID, year, c), problemID, year, c)
  {
    var x := c.memoryLimit / 1024.0 / 1024.0;
    assert (-x).Floor as real <= -x < (-x).Floor as real + 1.0;
  }

  /** The case is named by one of the subtasks, under that subtask's limits. */
  ghost predicate NamedBy(subTasks: seq<RawSubTask>, c: SubTaskCase) {
    exists k, i :: 0 <= k < |subTasks| && 0 <= i < |subTasks[k].testCaseNames|
                   && c == SubTaskCase(subTasks[k].testCaseNames[i], subTasks[k].timeLimit, subTasks[k].memoryLimit)
  }

  lemma NamedByIff(subTasks: seq<RawSubTask>, c: SubTaskCase)
    ensures NamedBy(subTasks, c) <==> exists k :: 0 <= k < |subTasks| && c in CasesOf(subTasks[k])
  {
    forall k, i | 0 <= k < |subTasks| && 0 <= i < |subTasks[k].testCaseNames|
      ensures CasesOf(subTasks[k])[i]
              == SubTaskCase(subTasks[k].testCaseNames[i], subTasks[k].timeLimit, subTasks[k].memoryLimit) {}
  }

  class CaseTable {
    const problemID: string
    const year: int
    var built: map<SubTaskCase, RunTask>

    constructor (problemID: string, year: int)
      ensures built == map[] && this.problemID == problemID && this.year == year
    {
      this.problemID, this.year, built := problemID, year, map[];
    }

    ghost predicate Valid() reads this {
      forall c | c in built :: built[c] == RunOf(problemID, year, c)
    }

    method BuildSubTask(raw: RawSubTask) returns (parsed: ParsedSubTask)
      requires Valid()
      modifies this`built
      ensures Valid()
      ensures parsed == ParsedSubTask(raw.name, raw.score, CasesOf(raw))
      ensures forall i | 0 <= i < |raw.testCaseNames| ::
                parsed.cases[i] == SubTaskCase(raw.testCaseNames[i], raw.timeLimit, raw.memoryLimit)
      ensures forall c :: c in built <==> c in old(built) || c in CasesOf(raw)
    {
      var cases: seq<SubTaskCase> := [];
      for i := 0 to |raw.testCaseNames|
        invariant Valid()
        invariant cases == CasesOf(raw)[..i]
        invariant forall c :: c in built <==> c in old(built) || c in CasesOf(raw)[..i]
      {
        var c := CaseOf(raw, raw.testCaseNames[i]);
        assert CasesOf(raw)[..i + 1] == CasesOf(raw)[..i] + [c];
        if c !in built { built := built[c := RunOf(problemID, year, c)]; }
        cases := cases + [c];
      }
      assert CasesOf(raw)[..|raw.testCaseNames|] == CasesOf(raw);
      parsed := ParsedSubTask(raw.name, raw.score, cases);
    }
  }

  /**
    Each case that some subtask names is built once, under its own limits and with the least
    megabytes that are enough, and no other; each subtask keeps its own list of cases.
  */
  method BuildSubTaskCase(problemID: string, year: int, subTasks: seq<RawSubTask>)
    returns (testCases: map<SubTaskCase, RunTask>, parsed: seq<ParsedSubTask>)
    ensures forall c :: c in testCases <==> NamedBy(subTasks, c)
    ensures forall c | c in testCases :: Asks(testCases[c], problemID, year, c)
    ensures |parsed| == |subTasks|
    ensures forall k | 0 <= k < |subTasks| ::
              && parsed[k].name == subTasks[k].name && parsed[k].score == subTasks[k].score
              && |parsed[k].cases| == |subTasks[k].testCaseNames|
              && forall i | 0 <= i < |parsed[k].cases| ::
                   parsed[k].cases[i]
                   == SubTaskCase(subTasks[k].testCaseNames[i], subTasks[k].timeLimit, subTasks[k].memoryLimit)
    ensures forall results: Results :: Covered(parsed, results) <==> testCases.Keys <= results.Keys
  {
    hide CasesOf, RunOf, Asks, NamedBy, Covered;
    var table := new CaseTable(problemID, year);
    parsed := [];
    for k := 0 to |subTasks|
      invariant fresh(table) && table.Valid() && table.problemID == problemID && table.year == year
      invariant forall c :: c in table.built <==> exists j :: 0 <= j < k && c in CasesOf(subTasks[j])
      invariant |parsed| == k
      invariant forall j | 0 <= j < k ::
                  parsed[j] == ParsedSubTask(subTasks[j].name, subTasks[j].score, CasesOf(subTasks[j]))
    {
      var p := table.BuildSubTask(subTasks[k]);
      parsed := parsed + [p];
    }
    testCases := table.built;
    forall c ensures c in testCases <==> NamedBy(subTasks, c) { NamedByIff(subTasks, c); }
    forall c | c in testCases ensures Asks(testCases[c], problemID, year, c) { MemoryIsEnough(problemID, year, c); }
    forall k | 0 <= k < |subTasks| ensures parsed[k].cases == CasesOf(subTasks[k]) {}
    CasesListed(subTasks, parsed);
    forall results: Results ensures Covered(parsed, results) <==> testCases.Keys <= results.Keys {
      CoveredIff(subTasks, parsed, testCases.Keys, results);
    }
  }

  lemma CasesListed(subTasks: seq<RawSubTask>, parsed: seq<ParsedSubTask>)
    requires |parsed| == |subTasks|
    requires forall k | 0 <= k < |subTasks| :: parsed[k].cases == CasesOf(subTasks[k])
    ensures forall k | 0 <= k < |subTasks| ::
              && |parsed[k].cases| == |subTasks[k].testCaseNames|
              && forall i | 0 <= i < |parsed[k].cases| ::
                   parsed[k].cases[i]
                   == SubTaskCase(subTasks[k].testCaseNames[i], subTasks[k].timeLimit, subTasks[k].memoryLimit)
  {}

  lemma CoveredIff(subTasks: seq<RawSubTask>, parsed: seq<ParsedSubTask>, keys: set<SubTaskCase>, results: Results)
    requires forall c :: c in keys <==> NamedBy(subTasks, c)
    requires |parsed| == |subTasks|
    requires forall k | 0 <= k < |subTasks| :: parsed[k].cases == CasesOf(subTasks[k])
    ensures Covered(parsed, results) <==> keys <= results.Keys
  {
    forall c ensures NamedBy(subTasks, c) <==> exists k :: 0 <= k < |subTasks| && c in CasesOf(subTasks[k]) {
      NamedByIff(subTasks, c);
    }
    hide CasesOf, NamedBy;
    if Covered(parsed, results) {
      forall c | c in keys ensures c in results {
        var k :| 0 <= k < |subTasks| && c in CasesOf(subTasks[k]);
        assert parsed[k] in parsed;
      }
    }
    if keys <= results.Keys {
      forall s, c | s in parsed && c in s.cases ensures c in results {
        var k :| 0 <= k < |parsed| && parsed[k] == s;
        assert c in CasesOf(subTasks[k]);
      }
    }
  }

  // ---- Scores ----

  datatype ScoreError = KeyError | ZeroDivisionError
  datatype ScoreDetail = ScoreDetail(taskScore: real, testScore: real, nCases: nat) {
    function Score(): Result<real, ScoreError> {
      if nCases == 0 then Err(ZeroDivisionError) else Ok(testScore / (nCases as real) * taskScore)
    }
  }

  type Results = map<SubTaskCase, JudgeResult>

  /** `sum(results[c].get_score() for c in cases)` */
  function TestScore(cases: seq<SubTaskCase>, results: Results): Result<real, ScoreError> {
    if cases == [] then Ok(0.0)
    else
      var n := |cases| - 1;
      var front := TestScore(cases[..n], results);
      if front.Err? then front
      else if cases[n] !in results then Err(KeyError)
      else Ok(front.value + results[cases[n]].GetScore())
  }

  /** A Python dict: its items in the order their keys were first put. */
  type Dict = seq<(string, ScoreDetail)>

  predicate HasKey(d: Dict, key: string) { exists i :: 0 <= i < |d| && d[i].0 == key }

  function IndexOf(d: Dict, key: string): (i: nat)
    requires HasKey(d, key)
    ensures i < |d| && d[i].0 == key
  {
    if d[|d| - 1].0 == key then |d| - 1 else IndexOf(d[..|d| - 1], key)
  }

  /** A key that is there keeps its place and gets the new value. */
  function Put(d: Dict, key: string, detail: ScoreDetail): Dict {
    if HasKey(d, key) then d[IndexOf(d, key) := (key, detail)] else d + [(key, detail)]
  }

  /** `IOIProblem.score`: a dict over the subtasks in order. */
  function Scores(subTasks: seq<ParsedSubTask>, results: Results): Result<Dict, ScoreError> {
    if subTasks == [] then Ok([])
    else
      var n := |subTasks| - 1;
      var front := Scores(subTasks[..n], results);
      var s := subTasks[n];
      if front.Err? then front
      else
        var t := TestScore(s.cases, results);
        if t.Err? then Err(t.error)
        else Ok(Put(front.value, s.name, ScoreDetail(s.score, t.value, |s.cases|)))
  }

  /** `IOIJudgeResult.score`: the sum over the dict's values. */
  function Total(d: Dict): Result<real, ScoreError> {
    if d == [] then Ok(0.0)
    else
      var n := |d| - 1;
      var front := Total(d[..n]);
      if front.Err? then front
      else
        var s := d[n].1.Score();
        if s.Err? then Err(s.error) else Ok(front.value + s.value)
  }

  function Judge(subTasks: seq<ParsedSubTask>, results: Results): Result<real, ScoreError> {
    var d := Scores(subTasks, results);
    if d.Err? then Err(d.error) else Total(d.value)
  }

  // ---- No result is missed ----

  ghost predicate Covered(subTasks: seq<ParsedSubTask>, results: Results) {
    forall s | s in subTasks :: forall c | c in s.cases :: c in results
  }

  lemma {:induction false} TestScoreDefined(cases: seq<SubTaskCase>, results: Results)
    ensures TestScore(cases, results).Ok? <==> forall c | c in cases :: c in results
    ensures TestScore(cases, results).Err? ==> TestScore(cases, results).error == KeyError
  {
    if cases != [] {
      var n := |cases| - 1;
      TestScoreDefined(cases[..n], results);
      assert cases == cases[..n] + [cases[n]];
    }
  }

  /** Scoring misses no result exactly when there is one for every case of every subtask. */
  lemma {:induction false} ScoresDefined(subTasks: seq<ParsedSubTask>, results: Results)
    ensures Scores(subTasks, results).Ok? <==> Covered(subTasks, results)
    ensures Scores(subTasks, results).Err? ==> Scores(subTasks, results).error == KeyError
  {
    hide TestScore;
    if subTasks != [] {
      var n := |subTasks| - 1;
      ScoresDefined(subTasks[..n], results);
      TestScoreDefined(subTasks[n].cases, results);
      assert subTasks == subTasks[..n] + [subTasks[n]];
    }
  }

  // ---- Bounds ----

  /** Judged scores are shares of full marks. */
  ghost predicate Shares(results: Results) {
    forall c | c in results :: results[c].JudgedScore? ==> 0.0 <= results[c].score <= 1.0
  }

  predicate AllOnes(cases: seq<SubTaskCase>, results: Results) {
    forall c | c in cases :: c in results && results[c] == JudgedScore(1.0)
  }

  lemma {:induction false} TestScoreBounds(cases: seq<SubTaskCase>, results: Results)
    requires Shares(results) && forall c | c in cases :: c in results
    ensures TestScore(cases, results).Ok?
    ensures 0.0 <= TestScore(cases, results).value <= |cases| as real
    ensures TestScore(cases, results).value == |cases| as real <==> AllOnes(cases, results)
  {
    if cases != [] {
      var n := |cases| - 1;
      TestScoreBounds(cases[..n], results);
      assert cases == cases[..n] + [cases[n]];
      assert AllOnes(cases, results) <==> AllOnes(cases[..n], results) && results[cases[n]] == JudgedScore(1.0);
    }
  }

  lemma ShareOf(sum: real, n: real, full: real)
    requires n > 0.0 && full > 0.0 && 0.0 <= sum <= n
    ensures 0.0 <= sum / n * full <= full
    ensures sum / n * full == full <==> sum == n
  {
    var x := sum / n;
    assert x * n == sum;
    assert 0.0 <= x <= 1.0;
    if x < 1.0 { assert x * full < 1.0 * full; }
  }

  // ---- Sums over a dict ----

  ghost predicate Fine(d: Dict) {
    forall i | 0 <= i < |d| :: d[i].1.nCases > 0
  }

  function Value(d: ScoreDetail): real
    requires d.nCases > 0
  {
    d.Score().value
  }

  lemma {:induction false} TotalUpdate(d: Dict, i: nat, item: (string, ScoreDetail))
    requires Fine(d) && i < |d| && item.1.nCases > 0
    ensures Total(d).Ok? && Total(d[i := item]).Ok?
    ensures Total(d[i := item]).value == Total(d).value - Value(d[i].1) + Value(item.1)
  {
    var n := |d| - 1;
    var now := d[i := item];
    TotalDefined(d[..n]);
    if i == n {
      assert now[..n] == d[..n];
    } else {
      TotalUpdate(d[..n], i, item);
      assert now[..n] == d[..n][i := item];
    }
  }

  /** The total divides by zero exactly when some subtask in the dict has no cases. */
  lemma {:induction false} TotalDefined(d: Dict)
    ensures Total(d).Ok? <==> Fine(d)
    ensures Total(d).Err? ==> Total(d).error == ZeroDivisionError
  {
    if d != [] {
      var n := |d| - 1;
      TotalDefined(d[..n]);
      assert forall i | 0 <= i < n :: d[..n][i] == d[i];
    }
  }

  lemma TotalAppend(d: Dict, item: (string, ScoreDetail))
    requires Fine(d) && item.1.nCases > 0
    ensures Total(d).Ok? && Total(d + [item]).Ok?
    ensures Total(d + [item]).value == Total(d).value + Value(item.1)
  {
    TotalDefined(d);
    assert (d + [item])[..|d|] == d;
  }

  // ---- The main result ----

  function FullMarks(subTasks: seq<ParsedSubTask>): real {
    if subTasks == [] then 0.0 else FullMarks(subTasks[..|subTasks| - 1]) + subTasks[|subTasks| - 1].score
  }

  predicate DistinctNames(subTasks: seq<ParsedSubTask>) {
    forall i, j :: 0 <= i < j < |subTasks| ==> subTasks[i].name != subTasks[j].name
  }

  /** Every subtask has cases and is worth something. */
  predicate Proper(subTasks: seq<ParsedSubTask>) {
    forall s | s in subTasks :: s.cases != [] && s.score > 0.0
  }

  ghost predicate Perfect(subTasks: seq<ParsedSubTask>, results: Results) {
    forall s | s in subTasks :: AllOnes(s.cases, results)
  }

  ghost predicate NameTaken(subTasks: seq<ParsedSubTask>, name: string) {
    exists k :: 0 <= k < |subTasks| && subTasks[k].name == name
  }

  /** The dict of a list of subtasks: its keys are their names, its values are not negative, and positive if `perfect`. */
  ghost predicate Sane(d: Dict, subTasks: seq<ParsedSubTask>, perfect: bool) {
    && Fine(d)
    && (forall i | 0 <= i < |d| :: 0.0 <= Value(d[i].1) && (perfect ==> 0.0 < Value(d[i].1)))
    && (forall name :: HasKey(d, name) <==> NameTaken(subTasks, name))
  }

  lemma DetailBounds(s: ParsedSubTask, results: Results)
    requires Shares(results) && s.cases != [] && s.score > 0.0 && forall c | c in s.cases :: c in results
    ensures TestScore(s.cases, results).Ok?
    ensures var v := Value(ScoreDetail(s.score, TestScore(s.cases, results).value, |s.cases|));
            0.0 <= v <= s.score && (v == s.score <==> AllOnes(s.cases, results))
  {
    hide TestScore, AllOnes, Shares;
    TestScoreBounds(s.cases, results);
    ShareOf(TestScore(s.cases, results).value, |s.cases| as real, s.score);
  }

  lemma PutSane(d: Dict, front: seq<ParsedSubTask>, perfect: bool, s: ParsedSubTask, detail: ScoreDetail)
    requires Sane(d, front, perfect) && detail.nCases > 0 && 0.0 <= Value(detail)
    ensures Sane(Put(d, s.name, detail), front + [s], perfect && 0.0 < Value(detail))
  {
    hide Value;
    var now := Put(d, s.name, detail);
    if HasKey(d, s.name) {
      var i := IndexOf(d, s.name);
      assert forall j | 0 <= j < |d| :: now[j].0 == d[j].0;
      assert forall name :: HasKey(now, name) <==> HasKey(d, name);
    } else {
      assert now[|d|].0 == s.name;
      assert forall j | 0 <= j < |d| :: now[j] == d[j];
      assert forall name :: HasKey(now, name) <==> HasKey(d, name) || name == s.name;
    }
    assert forall name :: NameTaken(front + [s], name) <==> NameTaken(front, name) || name == s.name by {
      forall name ensures NameTaken(front + [s], name) <==> NameTaken(front, name) || name == s.name {
        NameTakenNext(front, s, name);
      }
    }
  }

  lemma NameTakenNext(front: seq<ParsedSubTask>, s: ParsedSubTask, name: string)
    ensures NameTaken(front + [s], name) <==> NameTaken(front, name) || name == s.name
  {
    var all := front + [s];
    if k :| 0 <= k < |front| && front[k].name == name { assert all[k].name == name; }
    assert all[|front|] == s;
  }

  /** Putting a subtask's detail adds its value, less the value it takes the place of. */
  lemma PutTotal(d: Dict, name: string, detail: ScoreDetail)
    requires Fine(d) && detail.nCases > 0
    ensures Total(d).Ok? && Total(Put(d, name, detail)).Ok?
    ensures Total(Put(d, name, detail)).value
            == Total(d).value + Value(detail) - (if HasKey(d, name) then Value(d[IndexOf(d, name)].1) else 0.0)
  {
    hide Value, Total;
    if HasKey(d, name) {
      TotalUpdate(d, IndexOf(d, name), (name, detail));
    } else {
      TotalAppend(d, (name, detail));
    }
  }

  lemma DistinctNext(front: seq<ParsedSubTask>, s: ParsedSubTask)
    ensures DistinctNames(front + [s]) <==> DistinctNames(front) && !NameTaken(front, s.name)
  {
    var all := front + [s];
    assert all[|front|] == s && forall k | 0 <= k < |front| :: all[k] == front[k];
    if DistinctNames(all) {
      forall k | 0 <= k < |front| ensures front[k].name != s.name { assert all[k].name != all[|front|].name; }
      forall i, j | 0 <= i < j < |front| ensures front[i].name != front[j].name { assert all[i].name != all[j].name; }
    }
  }

  lemma AllNext(front: seq<ParsedSubTask>, s: ParsedSubTask, results: Results)
    ensures Proper(front + [s]) <==> Proper(front) && s.cases != [] && s.score > 0.0
    ensures Covered(front + [s], results) <==> Covered(front, results) && forall c | c in s.cases :: c in results
    ensures Perfect(front + [s], results) <==> Perfect(front, results) && AllOnes(s.cases, results)
    ensures FullMarks(front + [s]) == FullMarks(front) + s.score
  {
    hide AllOnes;
    var all := front + [s];
    assert all[..|front|] == front;
    assert forall x :: x in all <==> x in front || x == s;
  }

  /**
    With a result in [0, 1] for every case, and every subtask non-empty and worth something,
    the total lies between 0 and the sum of the task scores; and it is that sum exactly when
    every case scored 1 and no two subtasks have the same name.
  */
  lemma {:induction false} TotalBounds(subTasks: seq<ParsedSubTask>, results: Results)
    requires Proper(subTasks) && Covered(subTasks, results) && Shares(results)
    ensures Scores(subTasks, results).Ok?
    ensures Sane(Scores(subTasks, results).value, subTasks, Perfect(subTasks, results))
    ensures Judge(subTasks, results).Ok?
    ensures 0.0 <= Judge(subTasks, results).value <= FullMarks(subTasks)
    ensures Judge(subTasks, results).value == FullMarks(subTasks)
            <==> Perfect(subTasks, results) && DistinctNames(subTasks)
  {
    hide Proper, Covered, Shares, Perfect, DistinctNames, Value, Total, TestScore, AllOnes, Sane, Put, FullMarks;
    if subTasks == [] {
      NoSubTasks(results);
    } else {
      var n := |subTasks| - 1;
      var front, s := subTasks[..n], subTasks[n];
      assert subTasks == front + [s];
      AllNext(front, s, results);
      TotalBounds(front, results);
      DetailBounds(s, results);
      var d := Scores(front, results).value;
      var detail := ScoreDetail(s.score, TestScore(s.cases, results).value, |s.cases|);
      PutSane(d, front, Perfect(front, results), s, detail);
      PutStep(d, front, Perfect(front, results), s, detail);
      SaneWeaker(Put(d, s.name, detail), subTasks, Perfect(front, results) && 0.0 < Value(detail), Perfect(subTasks, results));
      NotNegative(Put(d, s.name, detail), subTasks, Perfect(subTasks, results));
      DistinctNext(front, s);
    }
  }

  lemma SaneWeaker(d: Dict, subTasks: seq<ParsedSubTask>, p: bool, q: bool)
    requires Sane(d, subTasks, p) && (q ==> p)
    ensures Sane(d, subTasks, q)
  {}

  lemma NotNegative(d: Dict, subTasks: seq<ParsedSubTask>, perfect: bool)
    requires Sane(d, subTasks, perfect)
    ensures Total(d).Ok? && 0.0 <= Total(d).value
  {
    hide Value;
    TotalNotNegative(d);
  }

  lemma {:induction false} TotalNotNegative(d: Dict)
    requires Fine(d) && forall i | 0 <= i < |d| :: 0.0 <= Value(d[i].1)
    ensures Total(d).Ok? && 0.0 <= Total(d).value
  {
    if d != [] { TotalNotNegative(d[..|d| - 1]); }
  }

  lemma NoSubTasks(results: Results)
    ensures Sane([], [], true) && Perfect([], results) && DistinctNames([]) && FullMarks([]) == 0.0
    ensures Total([]) == Ok(0.0)
  {}

  lemma PutStep(d: Dict, front: seq<ParsedSubTask>, perfect: bool, s: ParsedSubTask, detail: ScoreDetail)
    requires Sane(d, front, perfect) && detail.nCases > 0
    ensures Total(d).Ok? && Total(Put(d, s.name, detail)).Ok?
    ensures !NameTaken(front, s.name) ==> Total(Put(d, s.name, detail)).value == Total(d).value + Value(detail)
    ensures NameTaken(front, s.name) ==> Total(Put(d, s.name, detail)).value <= Total(d).value + Value(detail)
    ensures NameTaken(front, s.name) && perfect ==> Total(Put(d, s.name, detail)).value < Total(d).value + Value(detail)
  {
    hide Value, Total, Put, NameTaken;
    PutTotal(d, s.name, detail);
    assert HasKey(d, s.name) <==> NameTaken(front, s.name);
  }

  lemma ScoresNext(front: seq<ParsedSubTask>, s: ParsedSubTask, results: Results, d: Dict, t: real)
    requires Scores(front, results) == Ok(d) && TestScore(s.cases, results) == Ok(t)
    ensures Scores(front + [s], results) == Ok(Put(d, s.name, ScoreDetail(s.score, t, |s.cases|)))
    ensures FullMarks(front + [s]) == FullMarks(front) + s.score
  {
    assert (front + [s])[..|front|] == front;
  }

  /** Two subtasks of the same name, both perfect: the marks of the first are lost. */
  lemma SameNameLosesMarks(c: SubTaskCase)
    ensures var subTasks := [ParsedSubTask("a", 40.0, [c])] + [ParsedSubTask("a", 60.0, [c])];
            var results := map[c := JudgedScore(1.0)];
            Perfect(subTasks, results) && Judge(subTasks, results) == Ok(60.0) && FullMarks(subTasks) == 100.0
  {
    var one, two := ParsedSubTask("a", 40.0, [c]), ParsedSubTask("a", 60.0, [c]);
    var results: Results := map[c := JudgedScore(1.0)];
    var first, second := ScoreDetail(40.0, 1.0, 1), ScoreDetail(60.0, 1.0, 1);
    assert [c][..0] == [] && TestScore([c], results) == Ok(1.0);
    assert [] + [one] == [one];
    ScoresNext([], one, results, [], 1.0);
    assert Put([], "a", first) == [("a", first)];
    assert HasKey([("a", first)], "a") by { assert [("a", first)][0].0 == "a"; }
    ScoresNext([one], two, results, [("a", first)], 1.0);
    assert Put([("a", first)], "a", second) == [("a", second)];
    assert [("a", second)][..0] == [] && second.Score() == Ok(60.0);
    assert Total([("a", second)]) == Ok(60.0);
    assert FullMarks([one]) == 40.0 && FullMarks([one] + [two]) == 100.0;
    assert AllOnes([c], results);
    assert Perfect([one] + [two], results);
    assert Judge([one] + [two], results) == Ok(60.0);
  }
}
