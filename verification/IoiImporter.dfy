/** The import loop of tools/ioi_json_to_sql/main.go: a transaction per batch, five running counters. */
module IoiImporter {
  import opened Prelude
  import opened Sorting
  import opened IoiTables
  import opened IoiEffect
  import opened IoiRuns
  import opened IoiWalkOrder

  // ---- When a whole import goes through ----

  /** The records of the lines, in order. */
  function Tasks(lines: seq<Line>): seq<Task> {
    if lines == [] then []
    else
      var k := |lines| - 1;
      if lines[k].Rec? then Tasks(lines[..k]) + [Normalize(lines[k].record)] else Tasks(lines[..k])
  }

  /** The lines that hold a record, in order. */
  ghost function RecordLines(lines: seq<Line>): (at: seq<nat>)
    ensures forall i, j :: 0 <= i < j < |at| ==> at[i] < at[j]
    ensures forall i | 0 <= i < |at| :: at[i] < |lines|
    ensures forall k :: k in at <==> 0 <= k < |lines| && lines[k].Rec?
  {
    if lines == [] then []
    else
      var k := |lines| - 1;
      if lines[k].Rec? then RecordLines(lines[..k]) + [k] else RecordLines(lines[..k])
  }

  lemma {:induction false} TasksAt(lines: seq<Line>)
    ensures |Tasks(lines)| == |RecordLines(lines)|
    ensures forall j | 0 <= j < |Tasks(lines)| ::
              && RecordLines(lines)[j] in RecordLines(lines)
              && Tasks(lines)[j] == Normalize(lines[RecordLines(lines)[j]].record)
  {
    hide Normalize;
    if lines != [] { TasksAt(lines[..|lines| - 1]); }
  }

  /** No problem of this year and name yet, in the tables or among the earlier records. */
  ghost predicate Fresh(problems: map<int, Problem>, tasks: seq<Task>, r: Task) {
    !Has(problems, Key(r)) && forall j :: 0 <= j < |tasks| ==> Key(tasks[j]) != Key(r)
  }

  ghost predicate GoodLine(problems: map<int, Problem>, before: seq<Line>, l: Line) {
    match l
    case Blank => true
    case Malformed => false
    case Rec(record) => WellFormed(Normalize(record)) && Fresh(problems, Tasks(before), Normalize(record))
  }

  /** Every line is blank or a well-formed record, and no year and name occur twice. */
  ghost predicate Importable(problems: map<int, Problem>, lines: seq<Line>) {
    && (forall i :: 0 <= i < |lines| ==> !lines[i].Malformed?)
    && var ts := Tasks(lines);
       forall j :: 0 <= j < |ts| ==> WellFormed(ts[j]) && Fresh(problems, ts[..j], ts[j])
  }

  lemma ImportableNext(problems: map<int, Problem>, lines: seq<Line>, k: nat)
    requires k < |lines|
    ensures Importable(problems, lines[..k + 1])
            <==> Importable(problems, lines[..k]) && GoodLine(problems, lines[..k], lines[k])
  {
    hide WellFormed, Fresh;
    var now := lines[..k + 1];
    assert now[..k] == lines[..k] && now[k] == lines[k];
    var before, after := Tasks(lines[..k]), Tasks(now);
    assert forall j | 0 <= j < |before| :: after[..j] == before[..j] && after[j] == before[j];
    if lines[k].Rec? {
      assert after[..|before|] == before && after[|before|] == Normalize(lines[k].record);
    }
  }

  /**
    An import goes through iff every line is blank or a record; every record has an id and a
    year, distinct subtask names, and a test for each name its subtasks list; and no two have
    the same year and id, nor one that is in the tables.
  */
  lemma ImportableIff(problems: map<int, Problem>, lines: seq<Line>)
    ensures Importable(problems, lines) <==>
      && (forall k :: 0 <= k < |lines| ==> !lines[k].Malformed?)
      && (forall k :: 0 <= k < |lines| && lines[k].Rec? ==>
            var t := Normalize(lines[k].record);
            && t.id != "" && t.year != 0
            && (forall i, j :: 0 <= i < j < |t.subTasks| ==> t.subTasks[i].name != t.subTasks[j].name)
            && (forall s, name :: s in t.subTasks && name in s.testCaseNames ==> name in t.testCases)
            && (forall p :: p in problems ==> problems[p] != Problem(t.year, t.id)))
      && (forall j, k :: 0 <= j < k < |lines| && lines[j].Rec? && lines[k].Rec? ==>
            var t, u := Normalize(lines[j].record), Normalize(lines[k].record);
            t.id != u.id || t.year != u.year)
  {
    hide Normalize, Has, Importable, Named, AllNamed, DistinctNames, WellFormed;
    ImportableByLine(problems, lines);
    forall k | 0 <= k < |lines| && lines[k].Rec?
      ensures var t := Normalize(lines[k].record);
        WellFormed(t) && !Has(problems, Key(t)) <==>
          && t.id != "" && t.year != 0
          && (forall i, j :: 0 <= i < j < |t.subTasks| ==> t.subTasks[i].name != t.subTasks[j].name)
          && (forall s, name :: s in t.subTasks && name in s.testCaseNames ==> name in t.testCases)
          && (forall p :: p in problems ==> problems[p] != Problem(t.year, t.id))
    {
      WellFormedIff(Normalize(lines[k].record));
      HasIff(problems, Key(Normalize(lines[k].record)));
    }
  }

  lemma WellFormedIff(t: Task)
    ensures WellFormed(t) <==>
      && t.id != "" && t.year != 0
      && (forall i, j :: 0 <= i < j < |t.subTasks| ==> t.subTasks[i].name != t.subTasks[j].name)
      && (forall s, name :: s in t.subTasks && name in s.testCaseNames ==> name in t.testCases)
  {
    forall s | s in t.subTasks
      ensures Named(s, t.testCases) <==> forall name :: name in s.testCaseNames ==> name in t.testCases {}
  }

  lemma HasIff(problems: map<int, Problem>, key: Problem)
    ensures Has(problems, key) <==> !(forall p :: p in problems ==> problems[p] != key)
  {}

  lemma ImportableByLine(problems: map<int, Problem>, lines: seq<Line>)
    ensures Importable(problems, lines) <==>
      && (forall k :: 0 <= k < |lines| ==> !lines[k].Malformed?)
      && (forall k :: 0 <= k < |lines| && lines[k].Rec? ==>
            WellFormed(Normalize(lines[k].record)) && !Has(problems, Key(Normalize(lines[k].record))))
      && (forall j, k :: 0 <= j < k < |lines| && lines[j].Rec? && lines[k].Rec? ==>
            Key(Normalize(lines[j].record)) != Key(Normalize(lines[k].record)))
  {
    hide *;
    ImportableByTask(problems, lines);
    TasksByLine(problems, lines);
    KeysByLine(lines);
  }

  lemma TasksByLine(problems: map<int, Problem>, lines: seq<Line>)
    ensures (forall j :: 0 <= j < |Tasks(lines)| ==> WellFormed(Tasks(lines)[j]) && !Has(problems, Key(Tasks(lines)[j])))
            <==> forall k :: 0 <= k < |lines| && lines[k].Rec? ==>
                   WellFormed(Normalize(lines[k].record)) && !Has(problems, Key(Normalize(lines[k].record)))
  {
    hide *;
    TasksAt(lines);
    forall k | 0 <= k < |lines| && lines[k].Rec?
      ensures exists j :: 0 <= j < |Tasks(lines)| && Tasks(lines)[j] == Normalize(lines[k].record)
    {
      var j := TaskOfLine(lines, k);
    }
  }

  lemma TaskOfLine(lines: seq<Line>, k: nat) returns (j: nat)
    requires k < |lines| && lines[k].Rec?
    ensures j < |Tasks(lines)| == |RecordLines(lines)|
    ensures RecordLines(lines)[j] == k && Tasks(lines)[j] == Normalize(lines[k].record)
  {
    hide *;
    TasksAt(lines);
    assert k in RecordLines(lines);
    j :| 0 <= j < |RecordLines(lines)| && RecordLines(lines)[j] == k;
  }

  lemma KeysByLine(lines: seq<Line>)
    ensures (forall i, j :: 0 <= i < j < |Tasks(lines)| ==> Key(Tasks(lines)[i]) != Key(Tasks(lines)[j]))
            <==> forall j, k :: 0 <= j < k < |lines| && lines[j].Rec? && lines[k].Rec? ==>
                   Key(Normalize(lines[j].record)) != Key(Normalize(lines[k].record))
  {
    hide *;
    TasksAt(lines);
    if forall i, j :: 0 <= i < j < |Tasks(lines)| ==> Key(Tasks(lines)[i]) != Key(Tasks(lines)[j]) {
      forall j, k | 0 <= j < k < |lines| && lines[j].Rec? && lines[k].Rec?
        ensures Key(Normalize(lines[j].record)) != Key(Normalize(lines[k].record))
      {
        var i := TaskOfLine(lines, j);
        var i' := TaskOfLine(lines, k);
      }
    }
  }

  lemma ImportableByTask(problems: map<int, Problem>, lines: seq<Line>)
    ensures var ts := Tasks(lines);
      Importable(problems, lines) <==>
      && (forall k :: 0 <= k < |lines| ==> !lines[k].Malformed?)
      && (forall j :: 0 <= j < |ts| ==> WellFormed(ts[j]) && !Has(problems, Key(ts[j])))
      && (forall i, j :: 0 <= i < j < |ts| ==> Key(ts[i]) != Key(ts[j]))
  {
    hide WellFormed, Has, Key, Tasks, Fresh;
    var ts := Tasks(lines);
    forall j: nat | j < |ts|
      ensures Fresh(problems, ts[..j], ts[j])
              <==> !Has(problems, Key(ts[j])) && forall i :: 0 <= i < j ==> Key(ts[i]) != Key(ts[j])
    {
      FreshAmong(problems, ts, j);
    }
    assert Importable(problems, lines) ==> forall j | 0 <= j < |ts| :: Fresh(problems, ts[..j], ts[j]);
  }

  lemma FreshAmong(problems: map<int, Problem>, ts: seq<Task>, j: nat)
    requires j < |ts|
    ensures Fresh(problems, ts[..j], ts[j])
            <==> !Has(problems, Key(ts[j])) && forall i :: 0 <= i < j ==> Key(ts[i]) != Key(ts[j])
  {
    hide Has, Key;
    assert forall i :: 0 <= i < j ==> ts[..j][i] == ts[i];
  }

  lemma {:induction false} ImportablePrefix(problems: map<int, Problem>, lines: seq<Line>, k: nat)
    requires k <= |lines| && Importable(problems, lines)
    ensures Importable(problems, lines[..k])
    decreases |lines| - k
  {
    if k == |lines| {
      assert lines[..k] == lines;
    } else {
      ImportablePrefix(problems, lines, k + 1);
      ImportableNext(problems, lines, k);
    }
  }

  lemma ProblemFitsIff(t: Tables, id: int, row: Problem)
    requires forall i | i in t.problems :: i < id
    ensures ProblemFits(t, id, row) <==> !Has(t.problems, row)
  {}

  /** The walk of one record's tests knows the names the record has, so its links resolve iff they are named. */
  lemma NamesResolve(r: Task, order: seq<string>, from: int)
    requires Lists(order, r.testCases.Keys)
    ensures HasIds(r.subTasks, CaseIds(order, from)) <==> AllNamed(r.subTasks, r.testCases)
  {
    hide CaseIds;
    CaseIdsAt(order, from);
    forall s | s in r.subTasks ensures NamesKnown(s.testCaseNames, CaseIds(order, from)) <==> Named(s, r.testCases) {}
  }

  /** The keys present after a run are those before it and those of its records. */
  lemma FreshInPending(s: State, tasks: seq<Task>, orders: seq<seq<string>>, r: Task)
    requires Consistent(s) && Walks(tasks, orders)
    ensures Fresh(s.t.problems, tasks, r) <==> !Has(After(s, tasks, orders).t.problems, Key(r))
  {
    hide After, Walks, Sound;
    AfterProblems(s, tasks, orders);
    var now := After(s, tasks, orders).t.problems;
    if i :| i in s.t.problems && s.t.problems[i] == Key(r) {
      assert now[i] == Key(r);
    } else if j :| 0 <= j < |tasks| && Key(tasks[j]) == Key(r) {
      assert now[s.ids.problem + j] == Key(tasks[s.ids.problem + j - s.ids.problem]);
    } else {
      forall q | q in now ensures now[q] != Key(r) {
        if q in s.t.problems { assert now[q] == s.t.problems[q]; } else { assert now[q] == Key(tasks[q - s.ids.problem]); }
      }
    }
  }

  /** No row refers to the next problem id, and the next ids are above those in use. */
  lemma NoRowsYet(s: State)
    requires Consistent(s)
    ensures forall i | i in s.t.testCases :: i < s.ids.testCase && s.t.testCases[i].problem != s.ids.problem
    ensures forall i | i in s.t.subTasks :: i < s.ids.subTask && s.t.subTasks[i].problem != s.ids.problem
    ensures forall i | i in s.t.files :: i < s.ids.file && s.t.files[i].problem != s.ids.problem
    ensures forall i | i in s.t.links :: i < s.ids.link
  {}

  // ---- One more row ----

  lemma ListsSnoc<T>(s: seq<T>, keys: set<T>, x: T)
    requires Lists(s, keys) && x !in keys
    ensures Lists(s + [x], keys + {x})
  {}

  lemma NotListed<T>(s: seq<T>, keys: set<T>, x: T)
    requires Lists(s, keys) && x !in keys
    ensures x !in s
  {}

  lemma NoTests(base: map<int, TestCaseRow>, p: int, tests: map<string, TestCase>, from: int)
    ensures base + Block(TestRows(p, tests, []), from) == base && CaseIds([], from) == map[]
  {}

  lemma NoFiles(p: int, files: map<string, string>)
    ensures FileRows(p, files, []) == []
    ensures |files| == 0 ==> SortedNames(files.Keys) == []
  {
    ListingLength(SortedNames(files.Keys), files.Keys);
  }

  lemma NoLinks(sub: int, cases: map<string, int>)
    ensures NameLinks([], sub, cases) == []
  {}

  lemma NoSubTasks(p: int)
    ensures SubTaskRows(p, []) == []
  {}

  lemma NextTestFits(t: Tables, base: map<int, TestCaseRow>, p: int, tests: map<string, TestCase>,
                     order: seq<string>, from: int, name: string)
    requires forall x | x in order :: x in tests
    requires p in t.problems && t.testCases == base + Block(TestRows(p, tests, order), from)
    requires forall i | i in base :: i < from && base[i].problem != p
    requires name in tests && name !in order
    ensures TestCaseFits(t, from + |order|, TestRow(p, tests, name))
  {
    forall i | i in t.testCases && t.testCases[i].problem == p ensures t.testCases[i].name != name {
      assert t.testCases[i].name == order[i - from];
    }
  }

  lemma NextTest(base: map<int, TestCaseRow>, p: int, tests: map<string, TestCase>,
                 order: seq<string>, from: int, name: string)
    requires forall x | x in order :: x in tests
    requires name in tests
    ensures base + Block(TestRows(p, tests, order + [name]), from)
            == (base + Block(TestRows(p, tests, order), from))[from + |order| := TestRow(p, tests, name)]
    ensures CaseIds(order + [name], from) == CaseIds(order, from)[name := from + |order|]
  {
    BlockSnoc(base, TestRows(p, tests, order), TestRow(p, tests, name), from);
    assert TestRows(p, tests, order + [name]) == TestRows(p, tests, order) + [TestRow(p, tests, name)];
    assert (order + [name])[..|order|] == order;
  }

  lemma NextFileFits(t: Tables, base: map<int, FileRow>, p: int, files: map<string, string>,
                     order: seq<string>, from: int, k: nat)
    requires Lists(order, files.Keys) && k < |order|
    requires p in t.problems && t.files == base + Block(FileRows(p, files, order[..k]), from)
    requires forall i | i in base :: i < from && base[i].problem != p
    ensures FileFits(t, from + k, FileRow(p, order[k], files[order[k]]))
  {
    var rows := FileRows(p, files, order[..k]);
    assert forall i | 0 <= i < k :: rows[i].name == order[i] && order[i] != order[k];
    hide Lists, FileRows;
    forall i | i in t.files && t.files[i].problem == p ensures t.files[i].name != order[k] {
      assert t.files[i] == rows[i - from];
    }
  }

  lemma NextFile(base: map<int, FileRow>, p: int, files: map<string, string>, order: seq<string>, from: int, k: nat)
    requires Lists(order, files.Keys) && k < |order|
    ensures base + Block(FileRows(p, files, order[..k + 1]), from)
            == (base + Block(FileRows(p, files, order[..k]), from))[from + k := FileRow(p, order[k], files[order[k]])]
  {
    BlockSnoc(base, FileRows(p, files, order[..k]), FileRow(p, order[k], files[order[k]]), from);
    assert FileRows(p, files, order[..k + 1]) == FileRows(p, files, order[..k]) + [FileRow(p, order[k], files[order[k]])];
  }

  lemma NextSubTaskFits(t: Tables, base: map<int, SubTaskRow>, p: int, subTasks: seq<SubTask>, from: int, k: nat)
    requires k < |subTasks|
    requires p in t.problems && t.subTasks == base + Block(SubTaskRows(p, subTasks[..k]), from)
    requires forall i | i in base :: i < from && base[i].problem != p
    ensures SubTaskFits(t, from + k, SubTaskRowOf(p, subTasks[k]))
            <==> forall j :: 0 <= j < k ==> subTasks[j].name != subTasks[k].name
  {
    var rows := SubTaskRows(p, subTasks[..k]);
    assert forall j | 0 <= j < k :: rows[j].name == subTasks[j].name && rows[j].problem == p;
    hide SubTaskRows;
    if j :| 0 <= j < k && subTasks[j].name == subTasks[k].name {
      assert t.subTasks[from + j] == rows[j];
    } else {
      forall i | i in t.subTasks && t.subTasks[i].problem == p ensures t.subTasks[i].name != subTasks[k].name {
        assert t.subTasks[i] == rows[i - from];
      }
    }
  }

  lemma NextSubTask(base: map<int, SubTaskRow>, p: int, subTasks: seq<SubTask>, from: int, k: nat)
    requires k < |subTasks|
    ensures base + Block(SubTaskRows(p, subTasks[..k + 1]), from)
            == (base + Block(SubTaskRows(p, subTasks[..k]), from))[from + k := SubTaskRowOf(p, subTasks[k])]
  {
    BlockSnoc(base, SubTaskRows(p, subTasks[..k]), SubTaskRowOf(p, subTasks[k]), from);
    assert SubTaskRows(p, subTasks[..k + 1]) == SubTaskRows(p, subTasks[..k]) + [SubTaskRowOf(p, subTasks[k])];
  }

  lemma NextLink(base: map<int, LinkRow>, names: seq<string>, sub: int, cases: map<string, int>, from: int, k: nat)
    requires k < |names| && NamesKnown(names[..k + 1], cases)
    ensures NamesKnown(names[..k], cases)
    ensures base + Block(NameLinks(names[..k + 1], sub, cases), from)
            == (base + Block(NameLinks(names[..k], sub, cases), from))[from + k := LinkRow(sub, cases[names[k]])]
  {
    assert names[..k + 1] == names[..k] + [names[k]];
    BlockSnoc(base, NameLinks(names[..k], sub, cases), LinkRow(sub, cases[names[k]]), from);
    assert NameLinks(names[..k + 1], sub, cases) == NameLinks(names[..k], sub, cases) + [LinkRow(sub, cases[names[k]])];
  }

  lemma NextLinks(base: map<int, LinkRow>, subTasks: seq<SubTask>, sub: int, cases: map<string, int>, from: int, k: nat)
    requires k < |subTasks| && HasIds(subTasks[..k], cases) && NamesKnown(subTasks[k].testCaseNames, cases)
    ensures HasIds(subTasks[..k + 1], cases)
    ensures var before := LinkList(subTasks[..k], sub, cases);
            var more := NameLinks(subTasks[k].testCaseNames, sub + k, cases);
            && |more| == |subTasks[k].testCaseNames|
            && LinkList(subTasks[..k + 1], sub, cases) == before + more
            && base + Block(LinkList(subTasks[..k + 1], sub, cases), from)
               == base + Block(before, from) + Block(more, from + |before|)
  {
    assert |NameLinks(subTasks[k].testCaseNames, sub + k, cases)| == |subTasks[k].testCaseNames|;
    hide NamesKnown, NameLinks, Block;
    var now := subTasks[..k + 1];
    assert now == subTasks[..k] + [subTasks[k]] && now[..k] == subTasks[..k];
    BlockAppend(base, LinkList(subTasks[..k], sub, cases), NameLinks(subTasks[k].testCaseNames, sub + k, cases), from);
  }

  lemma BlockAppend<T>(m: map<int, T>, a: seq<T>, b: seq<T>, from: int)
    ensures m + Block(a, from) + Block(b, from + |a|) == m + Block(a + b, from)
  {}

  /** `s` with the rows of these subtasks, and a link for every name they list. */
  ghost predicate SubTasksIn(s: State, now: State, p: int, subTasks: seq<SubTask>, cases: map<string, int>) {
    && HasIds(subTasks, cases)
    && now.t == s.t.(subTasks := s.t.subTasks + Block(SubTaskRows(p, subTasks), s.ids.subTask),
                     links := s.t.links + Block(LinkList(subTasks, s.ids.subTask, cases), s.ids.link))
    && now.ids == s.ids.(subTask := s.ids.subTask + |subTasks|,
                         link := s.ids.link + |LinkList(subTasks, s.ids.subTask, cases)|)
  }

  lemma NoneIn(s: State, p: int, cases: map<string, int>)
    ensures SubTasksIn(s, s, p, [], cases) && DistinctNames([]) && HasIds([], cases)
  {
    BlockEmpty<SubTaskRow>(s.t.subTasks, s.ids.subTask);
    BlockEmpty<LinkRow>(s.t.links, s.ids.link);
    NoSubTasks(p);
  }

  /** The next subtask fits, and its names are known, iff all subtasks up to it can be inserted; if not, nor can all. */
  lemma NextFits(s: State, now: State, p: int, subTasks: seq<SubTask>, k: nat, cases: map<string, int>)
    requires k < |subTasks| && SubTasksIn(s, now, p, subTasks[..k], cases)
    requires DistinctNames(subTasks[..k]) && HasIds(subTasks[..k], cases)
    requires p in s.t.problems
    requires forall i | i in s.t.subTasks :: i < s.ids.subTask && s.t.subTasks[i].problem != p
    ensures now.t.testCases == s.t.testCases && now.ids.subTask == s.ids.subTask + k
    ensures var fits := SubTaskFits(now.t, now.ids.subTask, SubTaskRowOf(p, subTasks[k]))
                        && NamesKnown(subTasks[k].testCaseNames, cases);
            && (fits ==> DistinctNames(subTasks[..k + 1]) && HasIds(subTasks[..k + 1], cases))
            && (!fits ==> !(DistinctNames(subTasks) && HasIds(subTasks, cases)))
  {
    hide SubTaskFits, NamesKnown, Block, SubTaskRows, LinkList;
    assert |subTasks[..k]| == k;
    NextSubTaskFits(now.t, s.t.subTasks, p, subTasks, s.ids.subTask, k);
    assert subTasks[..k + 1] == subTasks[..k] + [subTasks[k]] && subTasks[k] in subTasks;
  }

  lemma OneMoreIn(s: State, now: State, p: int, subTasks: seq<SubTask>, k: nat, cases: map<string, int>)
    requires k < |subTasks| && SubTasksIn(s, now, p, subTasks[..k], cases)
    requires NamesKnown(subTasks[k].testCaseNames, cases)
    ensures now.ids.subTask == s.ids.subTask + k
    ensures SubTasksIn(
              s,
              State(now.t.(subTasks := now.t.subTasks[now.ids.subTask := SubTaskRowOf(p, subTasks[k])],
                           links := now.t.links + Block(NameLinks(subTasks[k].testCaseNames, now.ids.subTask, cases), now.ids.link)),
                    now.ids.(subTask := now.ids.subTask + 1, link := now.ids.link + |subTasks[k].testCaseNames|)),
              p, subTasks[..k + 1], cases)
  {
    hide NamesKnown, Block, SubTaskRows, LinkList, NameLinks, HasIds;
    assert |subTasks[..k]| == k && |subTasks[..k + 1]| == k + 1;
    NextSubTask(s.t.subTasks, p, subTasks, s.ids.subTask, k);
    NextLinks(s.t.links, subTasks, s.ids.subTask, cases, s.ids.link, k);
  }

  /** The names of a record's grader files, collected in whatever order, then sorted. */
  method SortedKeys(files: map<string, string>) returns (names: seq<string>)
    ensures names == SortedNames(files.Keys)
  {
    names := [];
    var left := files.Keys;
    while left != {}
      invariant left <= files.Keys && Lists(names, files.Keys - left)
      decreases left
    {
      var name :| name in left;
      ListsSnoc(names, files.Keys - left, name);
      assert files.Keys - left + {name} == files.Keys - (left - {name});
      names := names + [name];
      left := left - {name};
    }
    assert files.Keys - left == files.Keys;
    StringLeqIsTotalOrder();
    names := Sort(names, StringLeq, files.Keys);
  }

  class Import {
    var committed: Tables
    var pending: Tables
    var ids: Ids
    var count: nat

    ghost function Now(): State reads this { State(pending, ids) }

    constructor (t: Tables)
      requires Sound(t)
      ensures committed == t && pending == t && count == 0 && Consistent(Now())
      ensures ids == IdsFor(t)
    {
      committed := t;
      pending := t;
      ids := IdsFor(t);
      count := 0;
    }

    /** `commit`, then a new transaction. */
    method Commit()
      modifies this
      ensures committed == old(pending) && pending == old(pending) && ids == old(ids) && count == 0
    {
      committed := pending;
      count := 0;
    }

    /** The deferred `rollback`: the batch at hand is gone, what is committed stays. */
    method Rollback()
      modifies this`pending
      ensures pending == committed
    {
      pending := committed;
    }

    method InsertTestCases(p: int, tests: map<string, TestCase>)
      returns (ok: bool, cases: map<string, int>, ghost order: seq<string>)
      requires p in pending.problems
      requires forall i | i in pending.testCases :: i < ids.testCase && pending.testCases[i].problem != p
      modifies this
      ensures committed == old(committed) && count == old(count)
      ensures ok && Lists(order, tests.Keys) && cases == CaseIds(order, old(ids.testCase))
      ensures pending == old(pending).(testCases := old(pending.testCases) + Block(TestRows(p, tests, order), old(ids.testCase)))
      ensures ids == old(ids).(testCase := old(ids.testCase) + |order|)
    {
      hide Block, TestRows, CaseIds, TestCaseFits;
      cases, order, ok := map[], [], true;
      var left := tests.Keys;
      ghost var base, from := pending.testCases, ids.testCase;
      NoTests(base, p, tests, from);
      while left != {}
        invariant committed == old(committed) && count == old(count) && ok
        invariant left <= tests.Keys && Lists(order, tests.Keys - left)
        invariant forall x | x in order :: x in tests
        invariant cases == CaseIds(order, from)
        invariant pending == old(pending).(testCases := base + Block(TestRows(p, tests, order), from))
        invariant ids == old(ids).(testCase := from + |order|)
        decreases left
      {
        hide Lists;
        var name :| name in left;
        var row := TestRow(p, tests, name);
        NotListed(order, tests.Keys - left, name);
        NextTestFits(pending, base, p, tests, order, from, name);
        if !TestCaseFits(pending, ids.testCase, row) { ok := false; return; }
        NextTest(base, p, tests, order, from, name);
        ListsSnoc(order, tests.Keys - left, name);
        pending := pending.(testCases := pending.testCases[ids.testCase := row]);
        cases := cases[name := ids.testCase];
        ids := ids.(testCase := ids.testCase + 1);
        assert tests.Keys - left + {name} == tests.Keys - (left - {name});
        left := left - {name};
        order := order + [name];
      }
      assert tests.Keys - left == tests.Keys;
    }

    method InsertFiles(p: int, files: map<string, string>) returns (ok: bool)
      requires p in pending.problems
      requires forall i | i in pending.files :: i < ids.file && pending.files[i].problem != p
      modifies this
      ensures committed == old(committed) && count == old(count) && ok
      ensures pending == old(pending).(files := old(pending.files)
                                       + Block(FileRows(p, files, SortedNames(files.Keys)), old(ids.file)))
      ensures ids == old(ids).(file := old(ids.file) + |SortedNames(files.Keys)|)
    {
      hide Block, FileRows, FileFits, Sorted, SortedNames;
      ghost var base, from := pending.files, ids.file;
      ok := true;
      BlockEmpty<FileRow>(base, from);
      NoFiles(p, files);
      if |files| > 0 {
        var names := SortedKeys(files);
        assert names[..0] == [] && forall x | x in names :: x in files;
        hide Lists;
        for k := 0 to |names|
          invariant committed == old(committed) && count == old(count) && ok
          invariant pending == old(pending).(files := base + Block(FileRows(p, files, names[..k]), from))
          invariant ids == old(ids).(file := from + k)
        {
          NextFileFits(pending, base, p, files, names, from, k);
          NextFile(base, p, files, names, from, k);
          var row := FileRow(p, names[k], files[names[k]]);
          if !FileFits(pending, ids.file, row) { ok := false; return; }
          pending := pending.(files := pending.files[ids.file := row]);
          ids := ids.(file := ids.file + 1);
        }
        assert names[..|names|] == names;
      }
    }

    method InsertLinks(names: seq<string>, cases: map<string, int>) returns (ok: bool)
      requires ids.subTask in pending.subTasks
      requires forall name | name in cases :: cases[name] in pending.testCases
      requires forall i | i in pending.links :: i < ids.link
      modifies this
      ensures committed == old(committed) && count == old(count)
      ensures ok <==> NamesKnown(names, cases)
      ensures ok ==> pending == old(pending).(links := old(pending.links)
                                              + Block(NameLinks(names, old(ids.subTask), cases), old(ids.link)))
      ensures ok ==> ids == old(ids).(link := old(ids.link) + |names|)
      ensures ok ==> forall i | i in pending.links :: i < ids.link
    {
      hide Block, NameLinks;
      ghost var base, sub, from := pending.links, ids.subTask, ids.link;
      ok := true;
      BlockEmpty<LinkRow>(base, from);
      NoLinks(sub, cases);
      assert names[..0] == [];
      for k := 0 to |names|
        invariant committed == old(committed) && count == old(count) && ok
        invariant NamesKnown(names[..k], cases)
        invariant pending == old(pending).(links := base + Block(NameLinks(names[..k], sub, cases), from))
        invariant ids == old(ids).(link := from + k)
        invariant forall i | i in pending.links :: i < ids.link
      {
        if names[k] !in cases { ok := false; return; }
        assert names[..k + 1] == names[..k] + [names[k]];
        NextLink(base, names, sub, cases, from, k);
        var row := LinkRow(ids.subTask, cases[names[k]]);
        if !LinkFits(pending, ids.link, row) { ok := false; return; }
        pending := pending.(links := pending.links[ids.link := row]);
        ids := ids.(link := ids.link + 1);
      }
      assert names[..|names|] == names;
    }

    /** One subtask, then a link for each test it names. */
    method InsertSubTask(p: int, s: SubTask, cases: map<string, int>) returns (ok: bool)
      requires forall name | name in cases :: cases[name] in pending.testCases
      requires forall i | i in pending.links :: i < ids.link
      modifies this
      ensures committed == old(committed) && count == old(count)
      ensures ok <==> SubTaskFits(old(pending), old(ids.subTask), SubTaskRowOf(p, s)) && NamesKnown(s.testCaseNames, cases)
      ensures ok ==> pending == old(pending).(
                       subTasks := old(pending.subTasks)[old(ids.subTask) := SubTaskRowOf(p, s)],
                       links := old(pending.links) + Block(NameLinks(s.testCaseNames, old(ids.subTask), cases), old(ids.link)))
      ensures ok ==> ids == old(ids).(subTask := old(ids.subTask) + 1, link := old(ids.link) + |s.testCaseNames|)
      ensures ok ==> forall i | i in pending.links :: i < ids.link
    {
      hide Block, NameLinks, NamesKnown, SubTaskFits;
      if !SubTaskFits(pending, ids.subTask, SubTaskRowOf(p, s)) { return false; }
      pending := pending.(subTasks := pending.subTasks[ids.subTask := SubTaskRowOf(p, s)]);
      ok := InsertLinks(s.testCaseNames, cases);
      if !ok { return; }
      ids := ids.(subTask := ids.subTask + 1);
    }

    method InsertSubTasks(p: int, subTasks: seq<SubTask>, cases: map<string, int>) returns (ok: bool)
      requires p in pending.problems
      requires forall name | name in cases :: cases[name] in pending.testCases
      requires forall i | i in pending.subTasks :: i < ids.subTask && pending.subTasks[i].problem != p
      requires forall i | i in pending.links :: i < ids.link
      modifies this
      ensures committed == old(committed) && count == old(count)
      ensures ok <==> DistinctNames(subTasks) && HasIds(subTasks, cases)
      ensures ok ==> SubTasksIn(old(Now()), Now(), p, subTasks, cases)
    {
      hide SubTaskFits, NameLinks, NamesKnown, DistinctNames, HasIds, SubTasksIn, Block;
      ghost var start := Now();
      ok := true;
      NoneIn(start, p, cases);
      assert subTasks[..0] == [];
      for k := 0 to |subTasks|
        invariant committed == old(committed) && count == old(count) && ok
        invariant DistinctNames(subTasks[..k]) && HasIds(subTasks[..k], cases)
        invariant SubTasksIn(start, Now(), p, subTasks[..k], cases)
        invariant pending.testCases == start.t.testCases
        invariant forall i | i in pending.links :: i < ids.link
      {
        ghost var now := Now();
        NextFits(start, now, p, subTasks, k, cases);
        ok := InsertSubTask(p, subTasks[k], cases);
        if !ok { return; }
        OneMoreIn(start, now, p, subTasks, k, cases);
      }
      assert subTasks[..|subTasks|] == subTasks;
    }

    /** The rows of a record whose year and name are new: its problem, its tests in some order, files, subtasks, links. */
    method InsertRecord(r: Task) returns (ok: bool, ghost order: seq<string>)
      requires Consistent(Now()) && r.id != "" && r.year != 0
      requires ProblemFits(pending, ids.problem, Key(r))
      modifies this
      ensures committed == old(committed) && count == old(count)
      ensures Lists(order, r.testCases.Keys)
      ensures ok <==> WellFormed(r)
      ensures ok ==> Now() == Effect(old(Now()), r, order)
    {
      NoRowsYet(Now());
      hide Sound, Above, ProblemFits, Block, TestRows, FileRows, SubTaskRows, LinkList, Lists, SortedNames, HasIds,
           AllNamed, DistinctNames, CaseIds;
      var p := ids.problem;
      pending := pending.(problems := pending.problems[p := Key(r)]);
      ids := ids.(problem := ids.problem + 1);
      var cases;
      ok, cases, order := InsertTestCases(p, r.testCases);
      NamesResolve(r, order, old(ids.testCase));
      NewIdsInTable(old(pending.testCases), p, r.testCases, order, old(ids.testCase));
      ok := InsertFiles(p, r.files);
      ok := InsertSubTasks(p, r.subTasks, cases);
    }

    method ImportRecord(record: Record) returns (ok: bool, ghost order: seq<string>)
      requires Consistent(Now())
      modifies this
      ensures committed == old(committed) && count == old(count)
      ensures ok <==> WellFormed(Normalize(record)) && !Has(old(pending.problems), Key(Normalize(record)))
      ensures ok ==> Lists(order, Normalize(record).testCases.Keys)
                     && Now() == Effect(old(Now()), Normalize(record), order)
    {
      hide Sound, EffectTables, EffectIds, Lists;
      var r := Normalize(record);
      order := [];
      if r.id == "" || r.year == 0 { ok := false; return; }
      ProblemFitsIff(pending, ids.problem, Key(r));
      if !ProblemFits(pending, ids.problem, Key(r)) { ok := false; return; }
      ok, order := InsertRecord(r);
    }

    /** Between two lines: everything so far is pending, and all but the current batch is committed. */
    ghost predicate Between(start: State, before: seq<Line>, orders: seq<seq<string>>, batchSize: int, full: nat)
      reads this
    {
      && Walks(Tasks(before), orders) && Consistent(Now()) && Now() == After(start, Tasks(before), orders)
      && count < batchSize && WholeBatches(start, Tasks(before), orders, committed, batchSize, full, count)
    }

    /** Of the records so far, whole batches are committed; what is pending does not count. */
    ghost predicate KeptWhole(start: State, before: seq<Line>, orders: seq<seq<string>>, batchSize: int, full: nat)
      reads this`committed, this`count
    {
      count < batchSize && WholeBatches(start, Tasks(before), orders, committed, batchSize, full, count)
    }

    method Step(line: Line, batchSize: int, ghost start: State, ghost before: seq<Line>,
                ghost ordersBefore: seq<seq<string>>, ghost fullBefore: nat)
      returns (ok: bool, ghost orders: seq<seq<string>>, ghost full: nat)
      requires Consistent(start) && Between(start, before, ordersBefore, batchSize, fullBefore)
      modifies this
      ensures ok <==> GoodLine(start.t.problems, before, line)
      ensures ok ==> Between(start, before + [line], orders, batchSize, full)
      ensures !ok ==> KeptWhole(start, before, orders, batchSize, full)
    {
      hide Consistent, WellFormed, Lists, Effect, GoodLine, Fresh, WholeBatches, Tasks, Walks, After;
      ok, orders, full := !line.Malformed?, ordersBefore, fullBefore;
      LineIsGood(start.t.problems, before, line);
      RecordNext(before, line);
      if line.Rec? {
        ghost var tasks, r := Tasks(before), Normalize(line.record);
        FreshInPending(start, tasks, orders, r);
        ghost var order;
        ok, order := ImportRecord(line.record);
        if !ok { return; }
        AfterNext(start, tasks, orders, r, order);
        OneMore(start, tasks, orders, r, order, committed, batchSize, full, count);
        orders := orders + [order];
        count := count + 1;
        if count >= batchSize {
          BatchDone(start, tasks + [r], orders, committed, batchSize, full);
          Commit();
          full := full + 1;
        }
      }
    }

    /** The lines in order, up to the first that is not good. */
    method Lines(lines: seq<Line>, batchSize: int, ghost start: State)
      returns (ok: bool, stop: nat, ghost orders: seq<seq<string>>, ghost full: nat)
      requires Consistent(start) && Between(start, [], [], batchSize, 0) && Importable(start.t.problems, [])
      modifies this
      ensures ok <==> Importable(start.t.problems, lines)
      ensures ok ==> Between(start, lines, orders, batchSize, full)
      ensures !ok ==> Stopped(start, lines, orders, batchSize, stop, full)
    {
      ok, stop, orders, full := true, 0, [], 0;
      assert lines[..0] == [];
      hide Consistent, GoodLine, Importable, WholeBatches, Between, KeptWhole, Now;
      while stop < |lines|
        invariant ok && stop <= |lines| && Importable(start.t.problems, lines[..stop])
        invariant Between(start, lines[..stop], orders, batchSize, full)
        decreases |lines| - stop
      {
        ok, orders, full := Step(lines[stop], batchSize, start, lines[..stop], orders, full);
        NextLine(start.t.problems, lines, stop);
        if !ok { return; }
        stop := stop + 1;
      }
      assert lines[..|lines|] == lines;
    }

    /** Line `stop` is the first that is not good, and whole batches of the records before it are committed. */
    ghost predicate Stopped(start: State, lines: seq<Line>, orders: seq<seq<string>>, batchSize: int, stop: nat, full: nat)
      reads this`committed, this`count
    {
      && stop < |lines| && Importable(start.t.problems, lines[..stop])
      && !GoodLine(start.t.problems, lines[..stop], lines[stop])
      && KeptWhole(start, lines[..stop], orders, batchSize, full)
    }

    /**
      The import loop. It goes through exactly when every line is importable, and then commits
      what one transaction over all records would have. Stopped by a bad line, it has committed
      the whole records before it, up to a multiple of the batch size.
    */
    method Run(lines: seq<Line>, batchSize: int)
      returns (ok: bool, stop: nat, ghost orders: seq<seq<string>>, ghost full: nat)
      requires Consistent(Now()) && pending == committed && count == 0
      modifies this
      ensures batchSize <= 0 ==> !ok && committed == old(committed)
      ensures batchSize > 0 ==> (ok <==> Importable(old(committed.problems), lines))
      ensures ok ==> Walks(Tasks(lines), orders) && committed == After(old(Now()), Tasks(lines), orders).t
      ensures batchSize > 0 && !ok ==> Stopped(old(Now()), lines, orders, batchSize, stop, full) && pending == committed
    {
      hide Consistent, Importable, WholeBatches, Tasks, Walks, After, Stopped;
      ok, stop, orders, full := false, 0, [], 0;
      if batchSize <= 0 { return; }
      ghost var start := Now();
      AtStart(start, batchSize);
      ok, stop, orders, full := Lines(lines, batchSize, start);
      if ok { Commit(); } else { Rollback(); }
    }
  }

  /**
    Committed is the effect of whole records: those of the full batches, all but the last `left`,
    which are fewer than a batch.
  */
  ghost predicate WholeBatches(start: State, tasks: seq<Task>, orders: seq<seq<string>>, committed: Tables,
                               batch: int, full: nat, left: nat) {
    && Walks(tasks, orders) && left <= batch
    && |tasks| == full * batch + left
    && committed == After(start, tasks[..|tasks| - left], orders[..|tasks| - left]).t
  }

  lemma AtStart(start: State, batch: int)
    requires batch > 0
    ensures WholeBatches(start, [], [], start.t, batch, 0, 0) && Walks([], []) && After(start, [], []) == start
    ensures Tasks([]) == [] && Importable(start.t.problems, [])
  {}

  lemma OneMore(start: State, tasks: seq<Task>, orders: seq<seq<string>>, r: Task, order: seq<string>,
                committed: Tables, batch: int, full: nat, left: nat)
    requires WholeBatches(start, tasks, orders, committed, batch, full, left)
    requires Walks(tasks + [r], orders + [order]) && left < batch
    ensures WholeBatches(start, tasks + [r], orders + [order], committed, batch, full, left + 1)
  {
    assert |orders| == |tasks| && |tasks + [r]| == |tasks| + 1;
    hide Walks, After;
    var kept := |tasks| - left;
    assert (tasks + [r])[..kept] == tasks[..kept] && (orders + [order])[..kept] == orders[..kept];
  }

  lemma BatchDone(start: State, tasks: seq<Task>, orders: seq<seq<string>>, committed: Tables, batch: nat, full: nat)
    requires WholeBatches(start, tasks, orders, committed, batch, full, batch) && batch > 0
    ensures WholeBatches(start, tasks, orders, After(start, tasks, orders).t, batch, full + 1, 0)
  {
    assert (full + 1) * batch == full * batch + batch;
    assert tasks[..|tasks|] == tasks && orders[..|orders|] == orders;
  }

  lemma LineIsGood(problems: map<int, Problem>, before: seq<Line>, l: Line)
    ensures l.Blank? ==> GoodLine(problems, before, l)
    ensures l.Malformed? ==> !GoodLine(problems, before, l)
    ensures l.Rec? ==> (GoodLine(problems, before, l)
                        <==> WellFormed(Normalize(l.record)) && Fresh(problems, Tasks(before), Normalize(l.record)))
  {}

  lemma NextLine(problems: map<int, Problem>, lines: seq<Line>, i: nat)
    requires i < |lines| && Importable(problems, lines[..i])
    ensures lines[..i + 1] == lines[..i] + [lines[i]]
    ensures GoodLine(problems, lines[..i], lines[i]) <==> Importable(problems, lines[..i + 1])
    ensures !GoodLine(problems, lines[..i], lines[i]) ==> !Importable(problems, lines)
  {
    hide GoodLine, Importable;
    ImportableNext(problems, lines, i);
    if !GoodLine(problems, lines[..i], lines[i]) { StopsHere(problems, lines, i); }
  }

  /** A line that is not good keeps the whole input from being importable. */
  lemma StopsHere(problems: map<int, Problem>, lines: seq<Line>, i: nat)
    requires i < |lines|
    requires !GoodLine(problems, lines[..i], lines[i])
    ensures !Importable(problems, lines)
  {
    ImportableNext(problems, lines, i);
    if Importable(problems, lines) { ImportablePrefix(problems, lines, i + 1); }
  }

  // ---- Runs in step with the loop ----

  lemma RecordNext(before: seq<Line>, l: Line)
    ensures l.Rec? ==> Tasks(before + [l]) == Tasks(before) + [Normalize(l.record)]
    ensures !l.Rec? ==> Tasks(before + [l]) == Tasks(before)
  {
    assert (before + [l])[..|before|] == before;
  }

  lemma AfterNext(s: State, tasks: seq<Task>, orders: seq<seq<string>>, r: Task, order: seq<string>)
    requires Consistent(s) && Walks(tasks, orders) && WellFormed(r) && Lists(order, r.testCases.Keys)
    ensures Walks(tasks + [r], orders + [order])
    ensures After(s, tasks + [r], orders + [order]) == Effect(After(s, tasks, orders), r, order)
    ensures Consistent(After(s, tasks + [r], orders + [order]))
  {
    hide WellFormed, Lists, Consistent, EffectTables, EffectIds;
    var k := |tasks|;
    assert (tasks + [r])[..k] == tasks && (orders + [order])[..k] == orders;
    AfterConsistent(s, tasks + [r], orders + [order]);
  }

  lemma NewIdsInTable(base: map<int, TestCaseRow>, p: int, tests: map<string, TestCase>, order: seq<string>, from: int)
    requires Lists(order, tests.Keys)
    ensures forall name | name in CaseIds(order, from) ::
              CaseIds(order, from)[name] in base + Block(TestRows(p, tests, order), from)
  {
    hide CaseIds;
    CaseIdsAt(order, from);
  }

  /**
    Imports of the same lines with any two batch sizes go through alike, and leave equal tables
    up to a one-to-one renumbering of test cases, whatever order each walks the maps in.
  */
  method AnyBatchSize(t: Tables, lines: seq<Line>, size: int, other: int)
    returns (okA: bool, okB: bool, a: Tables, b: Tables, ghost there: map<int, int>, ghost back: map<int, int>)
    requires Sound(t) && size > 0 && other > 0
    ensures okA == okB
    ensures okA ==> SameUpToTestCaseIds(a, b, there, back)
  {
    hide Consistent, Importable, Walks, After, Tasks, SameUpToTestCaseIds, Lists;
    there, back := map[], map[];
    var first := new Import(t);
    ghost var start := first.Now();
    var stop;
    ghost var ordersA, ordersB, full;
    okA, stop, ordersA, full := first.Run(lines, size);
    var second := new Import(t);
    okB, stop, ordersB, full := second.Run(lines, other);
    a, b := first.committed, second.committed;
    if okA { there, back := RunOrder(start, Tasks(lines), ordersA, ordersB); }
  }
}
