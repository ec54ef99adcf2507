/**
  What importing a record of the IOI data set does to the tables
  (tools/ioi_json_to_sql/main.go), as a function of the record and of the order in which
  the import walked the record's map of test cases.
*/
module IoiEffect {
  import opened Prelude
  import opened Sorting
  import opened IoiTables

  datatype Limit = Limit(timeLimit: real, memoryLimit: real)
  datatype SubTask = SubTask(limit: Limit, name: string, score: int, testCaseNames: seq<string>)
  datatype TestCase = TestCase(input: string, output: string)

  datatype Metadata = Metadata(id: string, year: int, subTasks: seq<SubTask>,
                               graderFiles: map<string, string>, testCases: map<string, TestCase>)

  datatype Record = Record(metadata: Metadata, id: string, year: int, subTasks: seq<SubTask>,
                           graderFiles: map<string, string>, testCases: map<string, TestCase>)

  /** A line of the input: blank, not a record, or a record. */
  datatype Line = Blank | Malformed | Rec(record: Record)

  /** A record with the choice between its two layouts made. */
  datatype Task = Task(id: string, year: int, subTasks: seq<SubTask>,
                       testCases: map<string, TestCase>, files: map<string, string>)

  function Normalize(r: Record): Task {
    var legacy := r.metadata.id == "" && r.id != "";
    Task(if legacy then r.id else r.metadata.id,
         if legacy then r.year else r.metadata.year,
         if |r.subTasks| == 0 && |r.metadata.subTasks| > 0 then r.metadata.subTasks else r.subTasks,
         if |r.testCases| == 0 && |r.metadata.testCases| > 0 then r.metadata.testCases else r.testCases,
         if |r.graderFiles| == 0 && |r.metadata.graderFiles| > 0 then r.metadata.graderFiles else r.graderFiles)
  }

  /**
    The metadata names the problem unless it has no id while the root has one. Subtasks, tests
    and files are the root's, or the metadata's where the root has none.
  */
  lemma NormalizeFields(r: Record)
    ensures var m, t := r.metadata, Normalize(r);
      && (m.id != "" ==> t.id == m.id && t.year == m.year)
      && (m.id == "" && r.id != "" ==> t.id == r.id && t.year == r.year)
      && (m.id == "" && r.id == "" ==> t.id == "" && t.year == m.year)
      && t.subTasks == (if r.subTasks != [] then r.subTasks else m.subTasks)
      && t.testCases == (if r.testCases != map[] then r.testCases else m.testCases)
      && t.files == (if r.graderFiles != map[] then r.graderFiles else m.graderFiles)
  {
    EmptyIff(r.testCases);
    EmptyIff(r.metadata.testCases);
    EmptyIff(r.graderFiles);
    EmptyIff(r.metadata.graderFiles);
  }

  lemma EmptyIff<V>(m: map<string, V>)
    ensures |m| == 0 <==> m == map[]
  {
    if |m| == 0 { assert m.Keys == {}; }
  }

  /** The two layouts of a record mean the same: a `Task` of the fields they spell out. */
  lemma LayoutsAgree(id: string, year: int, subTasks: seq<SubTask>, files: map<string, string>, tests: map<string, TestCase>)
    requires id != ""
    ensures Normalize(Record(Metadata(id, year, subTasks, files, tests), "", 0, [], map[], map[]))
            == Task(id, year, subTasks, tests, files)
    ensures Normalize(Record(Metadata("", 0, [], map[], map[]), id, year, subTasks, files, tests))
            == Task(id, year, subTasks, tests, files)
  {
    NormalizeFields(Record(Metadata(id, year, subTasks, files, tests), "", 0, [], map[], map[]));
    NormalizeFields(Record(Metadata("", 0, [], map[], map[]), id, year, subTasks, files, tests));
  }

  // ---- The rows of one record ----

  function TestRow(p: int, tests: map<string, TestCase>, name: string): TestCaseRow
    requires name in tests
  {
    TestCaseRow(p, name, tests[name].input, tests[name].output)
  }

  function TestRows(p: int, tests: map<string, TestCase>, order: seq<string>): seq<TestCaseRow>
    requires forall name | name in order :: name in tests
  {
    seq(|order|, i requires 0 <= i < |order| => TestRow(p, tests, order[i]))
  }

  function FileRows(p: int, files: map<string, string>, order: seq<string>): seq<FileRow>
    requires forall name | name in order :: name in files
  {
    seq(|order|, i requires 0 <= i < |order| => FileRow(p, order[i], files[order[i]]))
  }

  function SubTaskRowOf(p: int, s: SubTask): SubTaskRow {
    SubTaskRow(p, s.name, s.score, s.limit.timeLimit, s.limit.memoryLimit)
  }

  function SubTaskRows(p: int, subTasks: seq<SubTask>): seq<SubTaskRow> {
    seq(|subTasks|, i requires 0 <= i < |subTasks| => SubTaskRowOf(p, subTasks[i]))
  }

  /** The import's map from test names to ids: the walk gives ids one after the other. */
  function CaseIds(order: seq<string>, from: int): map<string, int> {
    if order == [] then map[]
    else CaseIds(order[..|order| - 1], from)[order[|order| - 1] := from + |order| - 1]
  }

  predicate Named(s: SubTask, tests: map<string, TestCase>) {
    forall name | name in s.testCaseNames :: name in tests
  }

  predicate AllNamed(subTasks: seq<SubTask>, tests: map<string, TestCase>) {
    forall s | s in subTasks :: Named(s, tests)
  }

  function NameLinks(names: seq<string>, subTask: int, cases: map<string, int>): seq<LinkRow>
    requires NamesKnown(names, cases)
  {
    seq(|names|, i requires 0 <= i < |names| => LinkRow(subTask, cases[names[i]]))
  }

  predicate NamesKnown(names: seq<string>, cases: map<string, int>) {
    forall name | name in names :: name in cases
  }

  predicate HasIds(subTasks: seq<SubTask>, cases: map<string, int>) {
    forall s | s in subTasks :: NamesKnown(s.testCaseNames, cases)
  }

  /** One link for each name listed by each subtask, in order. */
  function LinkList(subTasks: seq<SubTask>, from: int, cases: map<string, int>): seq<LinkRow>
    requires HasIds(subTasks, cases)
  {
    if subTasks == [] then []
    else
      var k := |subTasks| - 1;
      LinkList(subTasks[..k], from, cases) + NameLinks(subTasks[k].testCaseNames, from + k, cases)
  }

  lemma {:induction false} CaseIdsAt(order: seq<string>, from: int)
    ensures forall name :: name in CaseIds(order, from) <==> name in order
    ensures forall name | name in order ::
              from <= CaseIds(order, from)[name] < from + |order| && order[CaseIds(order, from)[name] - from] == name
  {
    if order != [] {
      var k := |order| - 1;
      CaseIdsAt(order[..k], from);
      assert order == order[..k] + [order[k]];
    }
  }

  /** Names walked once each keep the id they were given. */
  lemma CaseIdsDistinct(order: seq<string>, keys: set<string>, from: int, i: nat)
    requires Lists(order, keys) && i < |order|
    ensures order[i] in CaseIds(order, from) && CaseIds(order, from)[order[i]] == from + i
  {
    CaseIdsAt(order, from);
  }

  // ---- The effect ----

  datatype State = State(t: Tables, ids: Ids)

  ghost predicate Consistent(s: State) {
    Sound(s.t) && Above(s.ids, s.t)
  }

  ghost function SortedNames(keys: set<string>): (s: seq<string>)
    ensures Lists(s, keys) && Sorted(s, StringLeq)
  {
    StringLeqIsTotalOrder();
    assert exists s :: Lists(s, keys) && Sorted(s, StringLeq) by {
      var s := SortedListingExists(keys, StringLeq);
    }
    var s :| Lists(s, keys) && Sorted(s, StringLeq);
    s
  }

  /** A name comes before another if it begins it, or has the smaller code point where they first differ. */
  lemma NamesInOrder(keys: set<string>, i: nat, j: nat)
    requires i < j < |SortedNames(keys)|
    ensures var a, b := SortedNames(keys)[i], SortedNames(keys)[j];
      a != b && (a <= b || exists k :: 0 <= k < |a| && k < |b| && a[..k] == b[..k] && a[k] < b[k])
  {
    hide StringLeq;
    StringLeqIff(SortedNames(keys)[i], SortedNames(keys)[j]);
  }

  predicate DistinctNames(subTasks: seq<SubTask>) {
    forall i, j :: 0 <= i < j < |subTasks| ==> subTasks[i].name != subTasks[j].name
  }

  /** The record can be imported: nothing but this makes the import of a record fail. */
  predicate WellFormed(r: Task) {
    && r.id != "" && r.year != 0
    && DistinctNames(r.subTasks)
    && AllNamed(r.subTasks, r.testCases)
  }

  function Key(r: Task): Problem { Problem(r.year, r.id) }

  lemma OrderGivesIds(r: Task, order: seq<string>, from: int)
    requires WellFormed(r) && Lists(order, r.testCases.Keys)
    ensures HasIds(r.subTasks, CaseIds(order, from))
  {
    CaseIdsAt(order, from);
    forall s | s in r.subTasks ensures NamesKnown(s.testCaseNames, CaseIds(order, from)) {
      assert Named(s, r.testCases);
    }
  }

  ghost function Links(r: Task, ids: Ids, order: seq<string>): seq<LinkRow>
    requires WellFormed(r) && Lists(order, r.testCases.Keys)
  {
    OrderGivesIds(r, order, ids.testCase);
    LinkList(r.subTasks, ids.subTask, CaseIds(order, ids.testCase))
  }

  ghost function EffectTables(s: State, r: Task, order: seq<string>): Tables
    requires WellFormed(r) && Lists(order, r.testCases.Keys)
  {
    Tables(s.t.problems[s.ids.problem := Key(r)],
           s.t.testCases + Block(TestRows(s.ids.problem, r.testCases, order), s.ids.testCase),
           s.t.subTasks + Block(SubTaskRows(s.ids.problem, r.subTasks), s.ids.subTask),
           s.t.links + Block(Links(r, s.ids, order), s.ids.link),
           s.t.files + Block(FileRows(s.ids.problem, r.files, SortedNames(r.files.Keys)), s.ids.file))
  }

  ghost function EffectIds(ids: Ids, r: Task, order: seq<string>): Ids
    requires WellFormed(r) && Lists(order, r.testCases.Keys)
  {
    Ids(ids.problem + 1, ids.testCase + |order|, ids.subTask + |r.subTasks|,
        ids.link + |Links(r, ids, order)|, ids.file + |SortedNames(r.files.Keys)|)
  }

  ghost function Effect(s: State, r: Task, order: seq<string>): State
    requires WellFormed(r) && Lists(order, r.testCases.Keys)
  {
    State(EffectTables(s, r, order), EffectIds(s.ids, r, order))
  }

  // ---- Where a link points ----

  /** How many names the first `k` subtasks list. */
  function Offset(subTasks: seq<SubTask>, k: nat): nat
    requires k <= |subTasks|
  {
    if k == 0 then 0 else Offset(subTasks, k - 1) + |subTasks[k - 1].testCaseNames|
  }

  lemma {:induction false} OffsetOfPrefix(subTasks: seq<SubTask>, n: nat, k: nat)
    requires k <= n <= |subTasks|
    ensures Offset(subTasks[..n], k) == Offset(subTasks, k)
  {
    if k > 0 { OffsetOfPrefix(subTasks, n, k - 1); }
  }

  /** One link for each listed name, and no other. */
  lemma {:induction false} LinkCount(subTasks: seq<SubTask>, from: int, cases: map<string, int>)
    requires HasIds(subTasks, cases)
    ensures |LinkList(subTasks, from, cases)| == Offset(subTasks, |subTasks|)
  {
    if subTasks != [] {
      var last := |subTasks| - 1;
      assert subTasks[last] in subTasks;
      LinkCount(subTasks[..last], from, cases);
      OffsetOfPrefix(subTasks, last, last);
    }
  }

  /** The link of a listed name joins its subtask and its test case. */
  lemma {:induction false} LinkAt(subTasks: seq<SubTask>, from: int, cases: map<string, int>, k: nat, i: nat)
    requires HasIds(subTasks, cases) && k < |subTasks| && i < |subTasks[k].testCaseNames|
    ensures subTasks[k].testCaseNames[i] in cases
    ensures Offset(subTasks, k) + i < |LinkList(subTasks, from, cases)|
    ensures LinkList(subTasks, from, cases)[Offset(subTasks, k) + i]
            == LinkRow(from + k, cases[subTasks[k].testCaseNames[i]])
  {
    var last := |subTasks| - 1;
    var front := subTasks[..last];
    assert subTasks[k] in subTasks && subTasks[last] in subTasks;
    OffsetOfPrefix(subTasks, last, k);
    LinkCount(front, from, cases);
    if k < last {
      assert front[k] == subTasks[k];
      LinkAt(front, from, cases, k, i);
    }
  }

  /** Every link of a record joins one of its subtasks and one of its test cases. */
  lemma {:induction false} LinksInRange(subTasks: seq<SubTask>, from: int, cases: map<string, int>, lo: int, hi: int)
    requires HasIds(subTasks, cases)
    requires forall name | name in cases :: lo <= cases[name] < hi
    ensures forall l | l in LinkList(subTasks, from, cases) ::
              from <= l.subTask < from + |subTasks| && lo <= l.testCase < hi
  {
    if subTasks != [] {
      var last := |subTasks| - 1;
      assert subTasks[last] in subTasks;
      LinksInRange(subTasks[..last], from, cases, lo, hi);
    }
  }
}
