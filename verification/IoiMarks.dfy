/** The score of a submission, said without the dict: which subtasks count, and for how much. */
module IoiMarks {
  import opened Prelude
  import opened IoiScore

  /** The sum of the judged scores; any other result adds nothing. */
  ghost function Judged(cases: seq<SubTaskCase>, results: Results): real {
    if cases == [] then 0.0
    else
      var n := |cases| - 1;
      var c := cases[n];
      Judged(cases[..n], results) + if c in results && results[c].JudgedScore? then results[c].score else 0.0
  }

  /** The part of the subtask's marks that its cases earn on average. */
  ghost function Share(s: ParsedSubTask, results: Results): real {
    if s.cases == [] then 0.0 else Judged(s.cases, results) / (|s.cases| as real) * s.score
  }

  /** No later subtask has the name of this one. */
  ghost predicate LastOfName(subTasks: seq<ParsedSubTask>, k: int) {
    0 <= k < |subTasks| && forall j :: k < j < |subTasks| ==> subTasks[j].name != subTasks[k].name
  }

  /** The shares of the subtasks, among the first `n`, that are the last of their name. */
  ghost function Marks(subTasks: seq<ParsedSubTask>, results: Results, n: nat): real
    requires n <= |subTasks|
  {
    if n == 0 then 0.0
    else Marks(subTasks, results, n - 1) + if LastOfName(subTasks, n - 1) then Share(subTasks[n - 1], results) else 0.0
  }

  // ---- The dict holds the last subtask of each name ----

  ghost function DetailOf(s: ParsedSubTask, results: Results): ScoreDetail {
    ScoreDetail(s.score, Judged(s.cases, results), |s.cases|)
  }

  lemma {:induction false} TestScoreIsJudged(cases: seq<SubTaskCase>, results: Results)
    requires forall c | c in cases :: c in results
    ensures TestScore(cases, results) == Ok(Judged(cases, results))
  {
    if cases != [] { TestScoreIsJudged(cases[..|cases| - 1], results); }
  }

  /** The item is that of subtask `m`, the last of its name. */
  ghost predicate IsItem(item: (string, ScoreDetail), subTasks: seq<ParsedSubTask>, results: Results, m: int) {
    LastOfName(subTasks, m) && item == (subTasks[m].name, DetailOf(subTasks[m], results))
  }

  ghost predicate IsSomeItem(item: (string, ScoreDetail), subTasks: seq<ParsedSubTask>, results: Results) {
    exists m :: IsItem(item, subTasks, results, m)
  }

  ghost predicate Latest(d: Dict, subTasks: seq<ParsedSubTask>, results: Results) {
    && DistinctKeys(d)
    && (forall i | 0 <= i < |d| :: IsSomeItem(d[i], subTasks, results))
    && (forall m :: LastOfName(subTasks, m) ==> exists i :: 0 <= i < |d| && IsItem(d[i], subTasks, results, m))
  }

  lemma LastNext(front: seq<ParsedSubTask>, s: ParsedSubTask, k: int)
    ensures LastOfName(front + [s], k) <==> k == |front| || (LastOfName(front, k) && front[k].name != s.name)
  {
    var all := front + [s];
    assert all[|front|] == s && forall j | 0 <= j < |front| :: all[j] == front[j];
    if LastOfName(all, k) && k < |front| {
      assert all[|front|].name != all[k].name;
      forall j | k < j < |front| ensures front[j].name != front[k].name { assert all[j].name != all[k].name; }
    }
  }

  lemma ItemNext(item: (string, ScoreDetail), front: seq<ParsedSubTask>, s: ParsedSubTask, results: Results, m: int)
    ensures IsItem(item, front + [s], results, m)
            <==> if m == |front| then item == (s.name, DetailOf(s, results))
                 else IsItem(item, front, results, m) && item.0 != s.name
    ensures IsItem(item, front, results, m) ==> 0 <= m < |front| && item.0 == front[m].name
  {
    LastNext(front, s, m);
    if LastOfName(front, m) { assert (front + [s])[m] == front[m]; }
  }

  ghost predicate DistinctKeys(d: Dict) {
    forall i, j :: 0 <= i < j < |d| ==> d[i].0 != d[j].0
  }

  /** Where the dict puts an item; the others stay as they are, under other keys. */
  lemma PutAt(d: Dict, key: string, detail: ScoreDetail) returns (at: nat)
    requires DistinctKeys(d)
    ensures var now := Put(d, key, detail);
      && DistinctKeys(now) && at <= |d| && |now| == (if at == |d| then |d| + 1 else |d|) && now[at] == (key, detail)
      && (forall i | 0 <= i < |d| && i != at :: now[i] == d[i])
      && (forall i | 0 <= i < |d| :: d[i].0 == key <==> i == at)
  {
    at := if HasKey(d, key) then IndexOf(d, key) else |d|;
  }

  lemma LatestNext(d: Dict, front: seq<ParsedSubTask>, s: ParsedSubTask, results: Results)
    requires Latest(d, front, results)
    ensures Latest(Put(d, s.name, DetailOf(s, results)), front + [s], results)
  {
    hide IsItem, LastOfName, DetailOf, Put, HasKey, DistinctKeys;
    var all, now := front + [s], Put(d, s.name, DetailOf(s, results));
    var at := PutAt(d, s.name, DetailOf(s, results));
    ItemNext(now[at], front, s, results, |front|);
    forall i | 0 <= i < |now| ensures IsSomeItem(now[i], all, results) {
      if i != at {
        assert IsSomeItem(d[i], front, results);
        var m :| IsItem(d[i], front, results, m);
        ItemNext(d[i], front, s, results, m);
      }
    }
    forall m | LastOfName(all, m) ensures exists i :: 0 <= i < |now| && IsItem(now[i], all, results, m) {
      LastNext(front, s, m);
      if m != |front| {
        var i :| 0 <= i < |d| && IsItem(d[i], front, results, m);
        ItemNext(d[i], front, s, results, m);
      }
    }
  }

  /** Scoring a covered list leaves the dict of the last subtasks of each name. */
  lemma {:induction false} ScoresLatest(subTasks: seq<ParsedSubTask>, results: Results)
    requires Covered(subTasks, results)
    ensures Scores(subTasks, results).Ok? && Latest(Scores(subTasks, results).value, subTasks, results)
  {
    hide Latest, Put, TestScore;
    if subTasks == [] {
      NoneLatest(results);
    } else {
      var n := |subTasks| - 1;
      ScoresLatest(subTasks[..n], results);
      assert subTasks[n] in subTasks;
      TestScoreIsJudged(subTasks[n].cases, results);
      LatestNext(Scores(subTasks[..n], results).value, subTasks[..n], subTasks[n], results);
      assert subTasks == subTasks[..n] + [subTasks[n]];
    }
  }

  lemma NoneLatest(results: Results)
    ensures Latest([], [], results)
  {}

  // ---- The sum over the dict ----

  ghost function Worth(d: ScoreDetail): real {
    if d.nCases == 0 then 0.0 else d.testScore / (d.nCases as real) * d.taskScore
  }

  ghost function Sum(d: Dict): real {
    if d == [] then 0.0 else Sum(d[..|d| - 1]) + Worth(d[|d| - 1].1)
  }

  lemma {:induction false} TotalIsSum(d: Dict)
    requires Total(d).Ok?
    ensures Total(d).value == Sum(d)
  {
    if d != [] { TotalIsSum(d[..|d| - 1]); }
  }

  lemma {:induction false} SumUpdate(d: Dict, i: nat, item: (string, ScoreDetail))
    requires i < |d|
    ensures Sum(d[i := item]) == Sum(d) - Worth(d[i].1) + Worth(item.1)
  {
    var n := |d| - 1;
    if i == n {
      assert d[i := item][..n] == d[..n];
    } else {
      SumUpdate(d[..n], i, item);
      assert d[i := item][..n] == d[..n][i := item];
    }
  }

  lemma SumPut(d: Dict, key: string, detail: ScoreDetail)
    ensures Sum(Put(d, key, detail))
            == Sum(d) + Worth(detail) - if HasKey(d, key) then Worth(d[IndexOf(d, key)].1) else 0.0
  {
    if HasKey(d, key) {
      SumUpdate(d, IndexOf(d, key), (key, detail));
    } else {
      assert (d + [(key, detail)])[..|d|] == d;
    }
  }

  /** A subtask put after others takes away what the last one of its name counted for, and nothing else. */
  lemma {:induction false} MarksBefore(front: seq<ParsedSubTask>, s: ParsedSubTask, results: Results, m: int, n: nat)
    requires n <= |front|
    requires if m < 0 then forall k | 0 <= k < |front| :: front[k].name != s.name
             else LastOfName(front, m) && front[m].name == s.name
    ensures Marks(front + [s], results, n)
            == Marks(front, results, n) - if 0 <= m < n then Share(front[m], results) else 0.0
  {
    hide LastOfName, Share;
    if n > 0 {
      MarksBefore(front, s, results, m, n - 1);
      LastNext(front, s, n - 1);
      assert (front + [s])[n - 1] == front[n - 1];
      if 0 <= m && LastOfName(front, n - 1) && front[n - 1].name == s.name { OneLast(front, m, n - 1); }
    }
  }

  lemma OneLast(subTasks: seq<ParsedSubTask>, m: int, k: int)
    requires LastOfName(subTasks, m) && LastOfName(subTasks, k) && subTasks[m].name == subTasks[k].name
    ensures m == k
  {}

  /** Every name has a last subtask. */
  lemma {:induction false} LastExists(subTasks: seq<ParsedSubTask>, k: nat) returns (m: nat)
    requires k < |subTasks|
    ensures LastOfName(subTasks, m) && subTasks[m].name == subTasks[k].name
    decreases |subTasks| - k
  {
    if j :| k < j < |subTasks| && subTasks[j].name == subTasks[k].name {
      m := LastExists(subTasks, j);
    } else {
      m := k;
    }
  }

  lemma KeyOfName(d: Dict, subTasks: seq<ParsedSubTask>, results: Results, k: nat)
    requires Latest(d, subTasks, results) && k < |subTasks|
    ensures HasKey(d, subTasks[k].name)
  {
    var m := LastExists(subTasks, k);
    var i :| 0 <= i < |d| && IsItem(d[i], subTasks, results, m);
    assert d[i].0 == subTasks[m].name;
  }

  /** The subtask, if any, that loses its place in the dict to a later one of this name. */
  lemma LosesPlace(d: Dict, subTasks: seq<ParsedSubTask>, results: Results, name: string) returns (m: int)
    requires Latest(d, subTasks, results)
    ensures if m < 0 then forall k | 0 <= k < |subTasks| :: subTasks[k].name != name
            else LastOfName(subTasks, m) && subTasks[m].name == name
    ensures (if HasKey(d, name) then Worth(d[IndexOf(d, name)].1) else 0.0)
            == if 0 <= m < |subTasks| then Share(subTasks[m], results) else 0.0
  {
    if HasKey(d, name) {
      assert IsSomeItem(d[IndexOf(d, name)], subTasks, results);
      m :| IsItem(d[IndexOf(d, name)], subTasks, results, m);
    } else {
      m := -1;
      forall k | 0 <= k < |subTasks| ensures subTasks[k].name != name { KeyOfName(d, subTasks, results, k); }
    }
  }

  lemma {:induction false} SumIsMarks(subTasks: seq<ParsedSubTask>, results: Results)
    requires Covered(subTasks, results)
    ensures Scores(subTasks, results).Ok?
    ensures Sum(Scores(subTasks, results).value) == Marks(subTasks, results, |subTasks|)
  {
    hide Latest, Put, TestScore, Sum, Share, Worth, Judged, HasKey, IndexOf;
    if subTasks == [] {
      assert Sum([]) == 0.0 by { NoSum(); }
    } else {
      var n := |subTasks| - 1;
      var front, s := subTasks[..n], subTasks[n];
      assert subTasks == front + [s] && s in subTasks;
      SumIsMarks(front, results);
      ScoresLatest(front, results);
      TestScoreIsJudged(s.cases, results);
      var d := Scores(front, results).value;
      var m := LosesPlace(d, front, results, s.name);
      SumPut(d, s.name, DetailOf(s, results));
      MarksBefore(front, s, results, m, n);
      LastNext(front, s, n);
      DetailWorth(s, results);
    }
  }

  lemma NoSum()
    ensures Sum([]) == 0.0
  {}

  lemma DetailWorth(s: ParsedSubTask, results: Results)
    ensures Worth(DetailOf(s, results)) == Share(s, results)
  {}

  // ---- The exact score ----

  /**
    What judging answers, for any subtasks and results: an error iff a case has no result, or
    else iff the last subtask of some name has no cases; and otherwise the sum, over the
    subtasks that are the last of their name, of their marks times the average of their judged
    scores, where a case not judged counts 0.
  */
  lemma JudgeExact(subTasks: seq<ParsedSubTask>, results: Results)
    ensures Judge(subTasks, results)
            == if !Covered(subTasks, results) then Err(KeyError)
               else if exists k :: LastOfName(subTasks, k) && subTasks[k].cases == [] then Err(ZeroDivisionError)
               else Ok(Marks(subTasks, results, |subTasks|))
  {
    hide Total, Sum, Marks, Scores, LastOfName, Covered;
    ScoresDefined(subTasks, results);
    if Covered(subTasks, results) {
      SumIsMarks(subTasks, results);
      ScoresLatest(subTasks, results);
      var d := Scores(subTasks, results).value;
      TotalDefined(d);
      FineIff(d, subTasks, results);
      if Total(d).Ok? { TotalIsSum(d); }
    }
  }

  lemma FineIff(d: Dict, subTasks: seq<ParsedSubTask>, results: Results)
    requires Latest(d, subTasks, results)
    ensures Fine(d) <==> !(exists k :: LastOfName(subTasks, k) && subTasks[k].cases == [])
  {
    hide LastOfName;
    forall i | 0 <= i < |d| ensures exists m :: IsItem(d[i], subTasks, results, m) {
      assert IsSomeItem(d[i], subTasks, results);
    }
  }

  /** With no name twice, every subtask counts. */
  lemma DistinctAllCount(subTasks: seq<ParsedSubTask>)
    ensures DistinctNames(subTasks) <==> forall k :: 0 <= k < |subTasks| ==> LastOfName(subTasks, k)
  {
    if forall k :: 0 <= k < |subTasks| ==> LastOfName(subTasks, k) {
      forall i, j | 0 <= i < j < |subTasks| ensures subTasks[i].name != subTasks[j].name {
        assert LastOfName(subTasks, i);
      }
    }
  }
}
