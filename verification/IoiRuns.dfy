/** Whole imports of the IOI data set: what they keep, what they store, what the walk order can change. */
module IoiRuns {
  import opened Prelude
  import opened Sorting
  import opened IoiTables
  import opened IoiEffect

  // ---- One record keeps the tables consistent ----

  lemma InBlock<T>(m: map<int, T>, rows: seq<T>, from: int, i: int)
    requires from <= i < from + |rows|
    ensures i in m + Block(rows, from) && (m + Block(rows, from))[i] == rows[i - from]
  {}

  lemma NewLinksJoin(s: State, r: Task, order: seq<string>, l: LinkRow)
    requires WellFormed(r) && Lists(order, r.testCases.Keys)
    requires l in Links(r, s.ids, order)
    ensures Joins(EffectTables(s, r, order).subTasks, EffectTables(s, r, order).testCases, l)
  {
    OrderGivesIds(r, order, s.ids.testCase);
    var p, rows, subs := s.ids.problem, TestRows(s.ids.problem, r.testCases, order), SubTaskRows(s.ids.problem, r.subTasks);
    assert forall i | 0 <= i < |rows| :: rows[i].problem == p;
    assert forall i | 0 <= i < |subs| :: subs[i].problem == p;
    hide Sorted, AllNamed, WellFormed, SortedNames, LinkList, Block, Lists, TestRows, SubTaskRows, FileRows, CaseIds, HasIds;
    CaseIdsAt(order, s.ids.testCase);
    LinksInRange(r.subTasks, s.ids.subTask, CaseIds(order, s.ids.testCase),
                 s.ids.testCase, s.ids.testCase + |order|);
    InBlock(s.t.testCases, rows, s.ids.testCase, l.testCase);
    InBlock(s.t.subTasks, subs, s.ids.subTask, l.subTask);
  }

  lemma OldLinksKept(s: State, r: Task, order: seq<string>, l: LinkRow)
    requires WellFormed(r) && Lists(order, r.testCases.Keys) && Above(s.ids, s.t)
    requires l.subTask in s.t.subTasks && l.testCase in s.t.testCases
    ensures var t := EffectTables(s, r, order);
            && l.subTask in t.subTasks && l.testCase in t.testCases
            && (Joins(s.t.subTasks, s.t.testCases, l) ==> Joins(t.subTasks, t.testCases, l))
  {
    hide Sorted, AllNamed, WellFormed, SortedNames, Links;
  }

  lemma EffectAbove(s: State, r: Task, order: seq<string>)
    requires Above(s.ids, s.t) && WellFormed(r) && Lists(order, r.testCases.Keys)
    ensures Above(EffectIds(s.ids, r, order), EffectTables(s, r, order))
  {
    hide Sorted, AllNamed, WellFormed, SortedNames, Links, Lists;
  }

  lemma TestRowsRefer(p: int, tests: map<string, TestCase>, order: seq<string>, from: int)
    requires Lists(order, tests.Keys)
    ensures forall i | i in Block(TestRows(p, tests, order), from) :: Block(TestRows(p, tests, order), from)[i].problem == p
  {}

  lemma FileRowsRefer(p: int, files: map<string, string>, order: seq<string>, from: int)
    requires Lists(order, files.Keys)
    ensures forall i | i in Block(FileRows(p, files, order), from) :: Block(FileRows(p, files, order), from)[i].problem == p
  {}

  lemma SubTaskRowsRefer(p: int, subTasks: seq<SubTask>, from: int)
    ensures forall i | i in Block(SubTaskRows(p, subTasks), from) :: Block(SubTaskRows(p, subTasks), from)[i].problem == p
  {}

  lemma EffectRefers(s: State, r: Task, order: seq<string>)
    requires Sound(s.t) && WellFormed(r) && Lists(order, r.testCases.Keys)
    ensures var t := EffectTables(s, r, order);
            && (forall i | i in t.testCases :: t.testCases[i].problem in t.problems)
            && (forall i | i in t.subTasks :: t.subTasks[i].problem in t.problems)
            && (forall i | i in t.files :: t.files[i].problem in t.problems)
  {
    hide Sorted, AllNamed, WellFormed, SortedNames, Links, Lists, Block, TestRows, FileRows, SubTaskRows;
    TestRowsRefer(s.ids.problem, r.testCases, order, s.ids.testCase);
    SubTaskRowsRefer(s.ids.problem, r.subTasks, s.ids.subTask);
    FileRowsRefer(s.ids.problem, r.files, SortedNames(r.files.Keys), s.ids.file);
  }

  lemma EffectLinks(s: State, r: Task, order: seq<string>)
    requires Consistent(s) && WellFormed(r) && Lists(order, r.testCases.Keys)
    ensures var t := EffectTables(s, r, order);
            && (forall i | i in t.links :: t.links[i].subTask in t.subTasks && t.links[i].testCase in t.testCases)
            && (LinksJoin(s.t) ==> LinksJoin(t))
  {
    hide Sorted, AllNamed, WellFormed, SortedNames, Links, Lists, TestRows, FileRows, SubTaskRows;
    var t := EffectTables(s, r, order);
    forall i | i in t.links
      ensures t.links[i].subTask in t.subTasks && t.links[i].testCase in t.testCases
      ensures LinksJoin(s.t) ==> Joins(t.subTasks, t.testCases, t.links[i])
    {
      if s.ids.link <= i {
        NewLinksJoin(s, r, order, t.links[i]);
      } else {
        OldLinksKept(s, r, order, s.t.links[i]);
      }
    }
  }

  /** References stay good, every id stays below its counter, and links keep within problems, record after record. */
  lemma EffectConsistent(s: State, r: Task, order: seq<string>)
    requires Consistent(s) && WellFormed(r) && Lists(order, r.testCases.Keys)
    ensures Consistent(Effect(s, r, order))
    ensures LinksJoin(s.t) ==> LinksJoin(Effect(s, r, order).t)
  {
    hide Sorted, AllNamed, WellFormed, Links, LinksJoin, Lists, Above, EffectTables, EffectIds;
    EffectAbove(s, r, order);
    EffectRefers(s, r, order);
    EffectLinks(s, r, order);
  }

  // ---- What is stored for a record ----

  ghost predicate Has<T>(rows: map<int, T>, row: T) {
    exists i :: i in rows && rows[i] == row
  }

  /** The rows of problem `p` are the record's test cases, each of them and no other. */
  ghost predicate HoldsTests(rows: map<int, TestCaseRow>, p: int, tests: map<string, TestCase>) {
    && (forall i | i in rows && rows[i].problem == p :: rows[i].name in tests && rows[i] == TestRow(p, tests, rows[i].name))
    && (forall name | name in tests :: Has(rows, TestRow(p, tests, name)))
  }

  ghost predicate HoldsFiles(rows: map<int, FileRow>, p: int, files: map<string, string>) {
    && (forall i | i in rows && rows[i].problem == p ::
          rows[i].name in files && rows[i].content == files[rows[i].name])
    && (forall name | name in files :: Has(rows, FileRow(p, name, files[name])))
  }

  ghost predicate Stored(t: Tables, p: int, r: Task) {
    && p in t.problems && t.problems[p] == Problem(r.year, r.id)
    && HoldsTests(t.testCases, p, r.testCases) && HoldsFiles(t.files, p, r.files)
  }

  lemma TestsStored(rows: map<int, TestCaseRow>, p: int, tests: map<string, TestCase>, order: seq<string>, from: int)
    requires Lists(order, tests.Keys)
    requires forall i | i in rows :: rows[i].problem != p
    ensures HoldsTests(rows + Block(TestRows(p, tests, order), from), p, tests)
  {
    var now := rows + Block(TestRows(p, tests, order), from);
    forall name | name in tests ensures Has(now, TestRow(p, tests, name)) {
      var i :| 0 <= i < |order| && order[i] == name;
      assert now[from + i] == TestRow(p, tests, name);
    }
  }

  lemma FilesStored(rows: map<int, FileRow>, p: int, files: map<string, string>, order: seq<string>, from: int)
    requires Lists(order, files.Keys)
    requires forall i | i in rows :: rows[i].problem != p
    ensures HoldsFiles(rows + Block(FileRows(p, files, order), from), p, files)
  {
    var now := rows + Block(FileRows(p, files, order), from);
    forall name | name in files ensures Has(now, FileRow(p, name, files[name])) {
      var i :| 0 <= i < |order| && order[i] == name;
      assert now[from + i] == FileRow(p, name, files[name]);
    }
  }

  lemma EffectStores(s: State, r: Task, order: seq<string>)
    requires Consistent(s) && WellFormed(r) && Lists(order, r.testCases.Keys)
    ensures Stored(EffectTables(s, r, order), s.ids.problem, r)
  {
    hide Sorted, AllNamed, WellFormed, SortedNames, Links, Lists, HoldsTests, HoldsFiles, Block;
    TestsStored(s.t.testCases, s.ids.problem, r.testCases, order, s.ids.testCase);
    FilesStored(s.t.files, s.ids.problem, r.files, SortedNames(r.files.Keys), s.ids.file);
  }

  lemma TestsKept(rows: map<int, TestCaseRow>, q: int, earlier: map<string, TestCase>,
                  p: int, tests: map<string, TestCase>, order: seq<string>, from: int)
    requires Lists(order, tests.Keys) && p != q
    requires forall i | i in rows :: i < from
    requires HoldsTests(rows, q, earlier)
    ensures HoldsTests(rows + Block(TestRows(p, tests, order), from), q, earlier)
  {
    var now := rows + Block(TestRows(p, tests, order), from);
    forall name | name in earlier ensures Has(now, TestRow(q, earlier, name)) {
      assert Has(rows, TestRow(q, earlier, name));
      var i :| i in rows && rows[i] == TestRow(q, earlier, name);
      assert now[i] == rows[i];
    }
  }

  lemma FilesKept(rows: map<int, FileRow>, q: int, earlier: map<string, string>,
                  p: int, files: map<string, string>, order: seq<string>, from: int)
    requires Lists(order, files.Keys) && p != q
    requires forall i | i in rows :: i < from
    requires HoldsFiles(rows, q, earlier)
    ensures HoldsFiles(rows + Block(FileRows(p, files, order), from), q, earlier)
  {
    var now := rows + Block(FileRows(p, files, order), from);
    forall name | name in earlier ensures Has(now, FileRow(q, name, earlier[name])) {
      assert Has(rows, FileRow(q, name, earlier[name]));
      var i :| i in rows && rows[i] == FileRow(q, name, earlier[name]);
      assert now[i] == rows[i];
    }
  }

  lemma EffectKeepsStored(s: State, r: Task, order: seq<string>, q: int, earlier: Task)
    requires Consistent(s) && WellFormed(r) && Lists(order, r.testCases.Keys)
    requires Stored(s.t, q, earlier)
    ensures Stored(EffectTables(s, r, order), q, earlier)
  {
    hide Sorted, AllNamed, WellFormed, SortedNames, Links, Lists, HoldsTests, HoldsFiles, Block, Sound;
    assert q < s.ids.problem;
    TestsKept(s.t.testCases, q, earlier.testCases, s.ids.problem, r.testCases, order, s.ids.testCase);
    FilesKept(s.t.files, q, earlier.files, s.ids.problem, r.files, SortedNames(r.files.Keys), s.ids.file);
  }

  // ---- Runs ----

  ghost predicate Walks(tasks: seq<Task>, orders: seq<seq<string>>) {
    && |orders| == |tasks|
    && forall i | 0 <= i < |tasks| :: WellFormed(tasks[i]) && Lists(orders[i], tasks[i].testCases.Keys)
  }

  /** The state after importing the records one after the other, without any batches. */
  ghost function After(s: State, tasks: seq<Task>, orders: seq<seq<string>>): State
    requires Walks(tasks, orders)
  {
    if tasks == [] then s
    else
      var k := |tasks| - 1;
      Effect(After(s, tasks[..k], orders[..k]), tasks[k], orders[k])
  }

  lemma {:induction false} AfterConsistent(s: State, tasks: seq<Task>, orders: seq<seq<string>>)
    requires Consistent(s) && Walks(tasks, orders)
    ensures Consistent(After(s, tasks, orders))
    ensures LinksJoin(s.t) ==> LinksJoin(After(s, tasks, orders).t)
    ensures After(s, tasks, orders).ids.problem == s.ids.problem + |tasks|
  {
    hide Consistent, LinksJoin, EffectTables, Lists, WellFormed;
    if tasks != [] {
      var k := |tasks| - 1;
      AfterConsistent(s, tasks[..k], orders[..k]);
      EffectConsistent(After(s, tasks[..k], orders[..k]), tasks[k], orders[k]);
    }
  }

  /** What was stored before the run is stored after it. */
  lemma {:induction false} AfterKeepsStored(s: State, tasks: seq<Task>, orders: seq<seq<string>>, q: int, earlier: Task)
    requires Consistent(s) && Walks(tasks, orders) && Stored(s.t, q, earlier)
    ensures Stored(After(s, tasks, orders).t, q, earlier)
  {
    hide Consistent, EffectTables, Lists, WellFormed, Stored;
    if tasks != [] {
      var k := |tasks| - 1;
      AfterConsistent(s, tasks[..k], orders[..k]);
      AfterKeepsStored(s, tasks[..k], orders[..k], q, earlier);
      EffectKeepsStored(After(s, tasks[..k], orders[..k]), tasks[k], orders[k], q, earlier);
    }
  }

  /** Each record of the run is stored, under the id it was given, whatever order its tests were walked in. */
  lemma {:induction false} AfterStores(s: State, tasks: seq<Task>, orders: seq<seq<string>>, j: nat)
    requires Consistent(s) && Walks(tasks, orders) && j < |tasks|
    ensures Stored(After(s, tasks, orders).t, s.ids.problem + j, tasks[j])
  {
    hide Consistent, EffectTables, Lists, WellFormed, Stored;
    var k := |tasks| - 1;
    var before := After(s, tasks[..k], orders[..k]);
    AfterConsistent(s, tasks[..k], orders[..k]);
    if j == k {
      EffectStores(before, tasks[k], orders[k]);
    } else {
      AfterStores(s, tasks[..k], orders[..k], j);
      EffectKeepsStored(before, tasks[k], orders[k], s.ids.problem + j, tasks[j]);
    }
  }

  /** The problems are the ones before the run and one per record, under consecutive ids. */
  lemma {:induction false} AfterProblems(s: State, tasks: seq<Task>, orders: seq<seq<string>>)
    requires Consistent(s) && Walks(tasks, orders)
    ensures forall q :: q in After(s, tasks, orders).t.problems <==>
                        q in s.t.problems || s.ids.problem <= q < s.ids.problem + |tasks|
    ensures forall q | q in s.t.problems :: After(s, tasks, orders).t.problems[q] == s.t.problems[q]
    ensures forall q | s.ids.problem <= q < s.ids.problem + |tasks| ::
              After(s, tasks, orders).t.problems[q] == Problem(tasks[q - s.ids.problem].year, tasks[q - s.ids.problem].id)
  {
    hide Lists, WellFormed, Block, Links, Sound;
    if tasks != [] {
      var k := |tasks| - 1;
      AfterConsistent(s, tasks[..k], orders[..k]);
      AfterProblems(s, tasks[..k], orders[..k]);
    }
  }

  // ---- Subtasks and links ----

  /** Every row of `t` is in `u`, unchanged. */
  ghost predicate Grows(t: Tables, u: Tables) {
    && (forall i | i in t.problems :: i in u.problems && u.problems[i] == t.problems[i])
    && (forall i | i in t.testCases :: i in u.testCases && u.testCases[i] == t.testCases[i])
    && (forall i | i in t.subTasks :: i in u.subTasks && u.subTasks[i] == t.subTasks[i])
    && (forall i | i in t.links :: i in u.links && u.links[i] == t.links[i])
    && (forall i | i in t.files :: i in u.files && u.files[i] == t.files[i])
  }

  lemma EffectGrows(s: State, r: Task, order: seq<string>)
    requires Consistent(s) && WellFormed(r) && Lists(order, r.testCases.Keys)
    ensures Grows(s.t, EffectTables(s, r, order))
  {
    hide Sound, Sorted, AllNamed, WellFormed, SortedNames, Links, Lists, TestRows, FileRows, SubTaskRows;
  }

  /** What is imported is never changed or removed by later records. */
  lemma {:induction false} AfterGrows(s: State, tasks: seq<Task>, orders: seq<seq<string>>, n: nat)
    requires Consistent(s) && Walks(tasks, orders) && n <= |tasks|
    ensures Grows(After(s, tasks[..n], orders[..n]).t, After(s, tasks, orders).t)
  {
    hide Consistent, EffectTables, EffectIds, Lists, WellFormed, Grows;
    var k := |tasks| - 1;
    if n == |tasks| {
      assert tasks[..n] == tasks && orders[..n] == orders;
      GrowsRefl(After(s, tasks, orders).t);
    } else {
      var before := After(s, tasks[..k], orders[..k]);
      assert tasks[..k][..n] == tasks[..n] && orders[..k][..n] == orders[..n];
      AfterGrows(s, tasks[..k], orders[..k], n);
      AfterConsistent(s, tasks[..k], orders[..k]);
      EffectGrows(before, tasks[k], orders[k]);
      GrowsTrans(After(s, tasks[..n], orders[..n]).t, before.t, After(s, tasks, orders).t);
    }
  }

  lemma GrowsRefl(t: Tables)
    ensures Grows(t, t)
  {}

  lemma GrowsTrans(t: Tables, u: Tables, v: Tables)
    requires Grows(t, u) && Grows(u, v)
    ensures Grows(t, v)
  {}

  /** Subtask `k` of the record has a row of its own with its name, score and limits. */
  ghost predicate HasSubTask(t: Tables, p: int, id: int, sub: SubTask) {
    id in t.subTasks
    && t.subTasks[id] == SubTaskRow(p, sub.name, sub.score, sub.limit.timeLimit, sub.limit.memoryLimit)
  }

  /** Link `id` goes from subtask `subTask` to the test case that the record has under `name`. */
  ghost predicate HasLink(t: Tables, p: int, id: int, subTask: int, tests: map<string, TestCase>, name: string) {
    && id in t.links && t.links[id].subTask == subTask
    && name in tests && t.links[id].testCase in t.testCases
    && t.testCases[t.links[id].testCase] == TestCaseRow(p, name, tests[name].input, tests[name].output)
  }

  lemma EffectSubTask(s: State, r: Task, order: seq<string>, k: nat)
    requires WellFormed(r) && Lists(order, r.testCases.Keys) && k < |r.subTasks|
    ensures HasSubTask(EffectTables(s, r, order), s.ids.problem, s.ids.subTask + k, r.subTasks[k])
  {
    hide Sorted, AllNamed, WellFormed, SortedNames, Links, Lists, TestRows, FileRows;
  }

  /** A test's row is under the id that the import's map has for its name. */
  lemma RowUnderItsId(rows: map<int, TestCaseRow>, p: int, tests: map<string, TestCase>, order: seq<string>, from: int, name: string)
    requires Lists(order, tests.Keys) && name in tests
    ensures var now := rows + Block(TestRows(p, tests, order), from);
            name in CaseIds(order, from) && CaseIds(order, from)[name] in now
            && now[CaseIds(order, from)[name]] == TestCaseRow(p, name, tests[name].input, tests[name].output)
  {
    hide CaseIds;
    CaseIdsAt(order, from);
  }

  lemma LinkInTable(s: State, r: Task, order: seq<string>, k: nat, i: nat)
    requires WellFormed(r) && Lists(order, r.testCases.Keys)
    requires k < |r.subTasks| && i < |r.subTasks[k].testCaseNames|
    ensures var t, id, cases := EffectTables(s, r, order), s.ids.link + Offset(r.subTasks, k) + i, CaseIds(order, s.ids.testCase);
            && r.subTasks[k].testCaseNames[i] in cases && id in t.links
            && t.links[id] == LinkRow(s.ids.subTask + k, cases[r.subTasks[k].testCaseNames[i]])
  {
    hide Sorted, AllNamed, WellFormed, SortedNames, TestRows, FileRows, SubTaskRows, LinkList, CaseIds, HasIds, Lists;
    OrderGivesIds(r, order, s.ids.testCase);
    LinkAt(r.subTasks, s.ids.subTask, CaseIds(order, s.ids.testCase), k, i);
  }

  lemma EffectLink(s: State, r: Task, order: seq<string>, k: nat, i: nat)
    requires WellFormed(r) && Lists(order, r.testCases.Keys)
    requires k < |r.subTasks| && i < |r.subTasks[k].testCaseNames|
    ensures HasLink(EffectTables(s, r, order), s.ids.problem, s.ids.link + Offset(r.subTasks, k) + i,
                    s.ids.subTask + k, r.testCases, r.subTasks[k].testCaseNames[i])
  {
    assert Named(r.subTasks[k], r.testCases);
    var t, name := EffectTables(s, r, order), r.subTasks[k].testCaseNames[i];
    assert t.testCases == s.t.testCases + Block(TestRows(s.ids.problem, r.testCases, order), s.ids.testCase);
    assert name in r.testCases;
    hide EffectTables, AllNamed, Named, WellFormed, Links, CaseIds, Lists, Block, TestRows, Offset;
    LinkInTable(s, r, order, k, i);
    RowUnderItsId(s.t.testCases, s.ids.problem, r.testCases, order, s.ids.testCase, name);
  }

  /**
    After a whole import the subtasks of record `j` are there as the record has them, and each
    name a subtask lists has its link, from that subtask to the record's test of that name.
  */
  lemma RunLinks(s: State, tasks: seq<Task>, orders: seq<seq<string>>, j: nat, k: nat, i: nat)
    requires Consistent(s) && Walks(tasks, orders) && j < |tasks|
    requires k < |tasks[j].subTasks| && i < |tasks[j].subTasks[k].testCaseNames|
    ensures var t, at := After(s, tasks, orders).t, After(s, tasks[..j], orders[..j]).ids;
            && HasSubTask(t, s.ids.problem + j, at.subTask + k, tasks[j].subTasks[k])
            && HasLink(t, s.ids.problem + j, at.link + Offset(tasks[j].subTasks, k) + i, at.subTask + k,
                       tasks[j].testCases, tasks[j].subTasks[k].testCaseNames[i])
  {
    hide Consistent, EffectTables, EffectIds, Lists, WellFormed, After, Grows, HasSubTask, HasLink, Offset;
    var before := After(s, tasks[..j], orders[..j]);
    AfterOne(s, tasks, orders, j);
    EffectSubTask(before, tasks[j], orders[j], k);
    EffectLink(before, tasks[j], orders[j], k, i);
    AfterGrows(s, tasks, orders, j + 1);
    GrowsKeeps(EffectTables(before, tasks[j], orders[j]), After(s, tasks, orders).t, s.ids.problem + j,
               before.ids.subTask + k, tasks[j].subTasks[k], before.ids.link + Offset(tasks[j].subTasks, k) + i,
               tasks[j].testCases, tasks[j].subTasks[k].testCaseNames[i]);
  }

  lemma AfterOne(s: State, tasks: seq<Task>, orders: seq<seq<string>>, j: nat)
    requires Consistent(s) && Walks(tasks, orders) && j < |tasks|
    ensures var before := After(s, tasks[..j], orders[..j]);
            && before.ids.problem == s.ids.problem + j
            && After(s, tasks[..j + 1], orders[..j + 1]) == Effect(before, tasks[j], orders[j])
  {
    hide Consistent, EffectTables, EffectIds, Lists, WellFormed;
    AfterConsistent(s, tasks[..j], orders[..j]);
    assert tasks[..j + 1][..j] == tasks[..j] && orders[..j + 1][..j] == orders[..j];
  }

  lemma GrowsKeeps(t: Tables, u: Tables, p: int, sub: int, subTask: SubTask, link: int,
                   tests: map<string, TestCase>, name: string)
    requires Grows(t, u) && HasSubTask(t, p, sub, subTask) && HasLink(t, p, link, sub, tests, name)
    ensures HasSubTask(u, p, sub, subTask) && HasLink(u, p, link, sub, tests, name)
  {}

  // ---- Ids stay clear of 0 ----

  ghost predicate IdsAtLeastOne(s: State) {
    && s.ids.problem >= 1 && s.ids.testCase >= 1 && s.ids.subTask >= 1 && s.ids.link >= 1 && s.ids.file >= 1
    && (forall i | i in s.t.problems :: i >= 1)
    && (forall i | i in s.t.testCases :: i >= 1)
    && (forall i | i in s.t.subTasks :: i >= 1)
    && (forall i | i in s.t.links :: i >= 1)
    && (forall i | i in s.t.files :: i >= 1)
  }

  lemma EffectIdsAtLeastOne(s: State, r: Task, order: seq<string>)
    requires IdsAtLeastOne(s) && WellFormed(r) && Lists(order, r.testCases.Keys)
    ensures IdsAtLeastOne(Effect(s, r, order))
  {
    hide Sorted, AllNamed, WellFormed, SortedNames, Links, Lists;
  }

  /** Ids that start at 1 or above stay there: 0 is never the id of an imported row. */
  lemma {:induction false} AfterIdsAtLeastOne(s: State, tasks: seq<Task>, orders: seq<seq<string>>)
    requires IdsAtLeastOne(s) && Walks(tasks, orders)
    ensures IdsAtLeastOne(After(s, tasks, orders))
  {
    hide IdsAtLeastOne, EffectTables, EffectIds, WellFormed, Lists;
    if tasks != [] {
      var k := |tasks| - 1;
      AfterIdsAtLeastOne(s, tasks[..k], orders[..k]);
      EffectIdsAtLeastOne(After(s, tasks[..k], orders[..k]), tasks[k], orders[k]);
    }
  }
}
