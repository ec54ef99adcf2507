/**
  The order in which a map of test cases is walked is up to the Go runtime. Two imports of
  the same records that walk them in different orders differ in test case ids only.
*/
module IoiWalkOrder {
  import opened Prelude
  import opened Sorting
  import opened IoiTables
  import opened IoiEffect
  import opened IoiRuns

  /** `there` and `back` are inverse to each other between the ids of `a` and of `b`, and keep each row. */
  ghost predicate Renumbered<T>(a: map<int, T>, b: map<int, T>, there: map<int, int>, back: map<int, int>) {
    && there.Keys == a.Keys && back.Keys == b.Keys
    && (forall i | i in there :: there[i] in back && back[there[i]] == i && b[there[i]] == a[i])
    && (forall j | j in back :: back[j] in there && there[back[j]] == j)
  }

  /** The same links, with the test case of each renumbered. */
  ghost predicate Relinked(a: map<int, LinkRow>, b: map<int, LinkRow>, there: map<int, int>) {
    && a.Keys == b.Keys
    && forall l | l in a :: a[l].testCase in there && b[l] == LinkRow(a[l].subTask, there[a[l].testCase])
  }

  /** Equal tables, up to a one-to-one renumbering of the test cases. */
  ghost predicate SameUpToTestCaseIds(a: Tables, b: Tables, there: map<int, int>, back: map<int, int>) {
    && a.problems == b.problems && a.subTasks == b.subTasks && a.files == b.files
    && Renumbered(a.testCases, b.testCases, there, back)
    && Relinked(a.links, b.links, there)
  }

  /** The id the other walk gives to the test that this one gives id `i`. */
  ghost function IdUnder(from: int, a: seq<string>, b: seq<string>, keys: set<string>, i: int): (j: int)
    requires Lists(a, keys) && Lists(b, keys) && from <= i < from + |a|
    ensures from <= j < from + |b| && b[j - from] == a[i - from]
  {
    CaseIdsAt(b, from);
    assert a[i - from] in b;
    CaseIds(b, from)[a[i - from]]
  }

  ghost function Across(from: int, a: seq<string>, b: seq<string>, keys: set<string>): map<int, int>
    requires Lists(a, keys) && Lists(b, keys)
  {
    map i | from <= i < from + |a| :: IdUnder(from, a, b, keys, i)
  }

  lemma BlocksRenumbered<T>(a: map<int, T>, b: map<int, T>, on: map<int, int>, off: map<int, int>)
    requires on.Keys == a.Keys && off.Keys == b.Keys
    requires forall i | i in on :: on[i] in off && off[on[i]] == i && b[on[i]] == a[i]
    requires forall j | j in off :: off[j] in on && on[off[j]] == j
    ensures Renumbered(a, b, on, off)
  {}

  lemma RowAcross(p: int, tests: map<string, TestCase>, from: int, a: seq<string>, b: seq<string>, i: int)
    requires Lists(a, tests.Keys) && Lists(b, tests.Keys) && from <= i < from + |a|
    ensures var j := IdUnder(from, a, b, tests.Keys, i);
            Block(TestRows(p, tests, b), from)[j] == Block(TestRows(p, tests, a), from)[i]
  {
    hide IdUnder, CaseIds;
  }

  lemma RecordRowsRenumbered(p: int, tests: map<string, TestCase>, from: int, a: seq<string>, b: seq<string>)
    requires Lists(a, tests.Keys) && Lists(b, tests.Keys)
    ensures Renumbered(Block(TestRows(p, tests, a), from), Block(TestRows(p, tests, b), from),
                       Across(from, a, b, tests.Keys), Across(from, b, a, tests.Keys))
  {
    hide IdUnder, CaseIds, Renumbered;
    var rowsA, rowsB := TestRows(p, tests, a), TestRows(p, tests, b);
    assert |rowsA| == |a| && |rowsB| == |b|;
    hide Lists, TestRows;
    var on, off := Across(from, a, b, tests.Keys), Across(from, b, a, tests.Keys);
    forall i | i in on ensures on[i] in off && off[on[i]] == i && Block(rowsB, from)[on[i]] == Block(rowsA, from)[i] {
      ThereAndBack(from, a, b, tests.Keys, i);
      RowAcross(p, tests, from, a, b, i);
    }
    forall i | i in off ensures off[i] in on && on[off[i]] == i {
      ThereAndBack(from, b, a, tests.Keys, i);
    }
    BlocksRenumbered(Block(rowsA, from), Block(rowsB, from), on, off);
  }

  lemma ThereAndBack(from: int, a: seq<string>, b: seq<string>, keys: set<string>, i: int)
    requires Lists(a, keys) && Lists(b, keys) && from <= i < from + |a|
    ensures IdUnder(from, b, a, keys, IdUnder(from, a, b, keys, i)) == i
  {
    hide IdUnder, CaseIds;
    var j := IdUnder(from, b, a, keys, IdUnder(from, a, b, keys, i));
    assert a[j - from] == a[i - from];
  }

  lemma RenumberedUnion<T>(a: map<int, T>, b: map<int, T>, there: map<int, int>, back: map<int, int>,
                           moreA: map<int, T>, moreB: map<int, T>, on: map<int, int>, off: map<int, int>, from: int)
    requires forall i | i in a :: i < from
    requires forall i | i in b :: i < from
    requires forall i | i in moreA :: from <= i
    requires forall i | i in moreB :: from <= i
    requires Renumbered(a, b, there, back) && Renumbered(moreA, moreB, on, off)
    ensures Renumbered(a + moreA, b + moreB, there + on, back + off)
  {
    var t, k := there + on, back + off;
    forall i | i in t ensures t[i] in k && k[t[i]] == i && (b + moreB)[t[i]] == (a + moreA)[i] {
      if i in on { assert on[i] in moreB; } else { assert there[i] in b && there[i] < from && there[i] !in off; }
    }
    forall j | j in k ensures k[j] in t && t[k[j]] == j {
      if j in off { assert off[j] in moreA; } else { assert back[j] in a && back[j] < from && back[j] !in on; }
    }
  }

  /** The links of one record under two walks: the same subtasks, the test cases renumbered. */
  lemma {:induction false} LinksRenumbered(subTasks: seq<SubTask>, sub: int, from: int,
                                           a: seq<string>, b: seq<string>, keys: set<string>)
    requires Lists(a, keys) && Lists(b, keys)
    requires HasIds(subTasks, CaseIds(a, from)) && HasIds(subTasks, CaseIds(b, from))
    ensures var la, lb := LinkList(subTasks, sub, CaseIds(a, from)), LinkList(subTasks, sub, CaseIds(b, from));
            && |la| == |lb|
            && forall k | 0 <= k < |la| ::
                 && from <= la[k].testCase < from + |a|
                 && lb[k] == LinkRow(la[k].subTask, Across(from, a, b, keys)[la[k].testCase])
  {
    hide CaseIds;
    if subTasks != [] {
      var k := |subTasks| - 1;
      assert subTasks[k] in subTasks;
      LinksRenumbered(subTasks[..k], sub, from, a, b, keys);
      NamesRenumbered(subTasks[k].testCaseNames, sub + k, from, a, b, keys);
    }
  }

  lemma NamesRenumbered(names: seq<string>, sub: int, from: int, a: seq<string>, b: seq<string>, keys: set<string>)
    requires Lists(a, keys) && Lists(b, keys)
    requires NamesKnown(names, CaseIds(a, from)) && NamesKnown(names, CaseIds(b, from))
    ensures var la, lb := NameLinks(names, sub, CaseIds(a, from)), NameLinks(names, sub, CaseIds(b, from));
            forall k | 0 <= k < |names| ::
                 && from <= la[k].testCase < from + |a|
                 && lb[k] == LinkRow(la[k].subTask, Across(from, a, b, keys)[la[k].testCase])
  {
    hide CaseIds, IdUnder;
    forall k | 0 <= k < |names|
      ensures from <= CaseIds(a, from)[names[k]] < from + |a|
      ensures CaseIds(b, from)[names[k]] == IdUnder(from, a, b, keys, CaseIds(a, from)[names[k]])
    {
      NameAcross(from, a, b, keys, names[k]);
    }
    hide Lists;
  }

  lemma NameAcross(from: int, a: seq<string>, b: seq<string>, keys: set<string>, name: string)
    requires Lists(a, keys) && Lists(b, keys) && name in CaseIds(a, from) && name in CaseIds(b, from)
    ensures from <= CaseIds(a, from)[name] < from + |a|
    ensures CaseIds(b, from)[name] == IdUnder(from, a, b, keys, CaseIds(a, from)[name])
  {
    hide CaseIds;
    CaseIdsAt(a, from);
    CaseIdsAt(b, from);
  }

  lemma TableRelinked(linksA: map<int, LinkRow>, linksB: map<int, LinkRow>, there: map<int, int>, more: map<int, int>,
                      la: seq<LinkRow>, lb: seq<LinkRow>, first: int, from: int)
    requires Relinked(linksA, linksB, there)
    requires forall i | i in there :: i < from
    requires forall i | i in more :: from <= i
    requires |la| == |lb|
    requires forall k | 0 <= k < |la| :: la[k].testCase in more && lb[k] == LinkRow(la[k].subTask, more[la[k].testCase])
    ensures Relinked(linksA + Block(la, first), linksB + Block(lb, first), there + more)
  {}

  lemma RecordLinksRenumbered(s: State, u: State, r: Task, a: seq<string>, b: seq<string>, there: map<int, int>)
    requires s.ids == u.ids
    requires WellFormed(r) && Lists(a, r.testCases.Keys) && Lists(b, r.testCases.Keys)
    requires Relinked(s.t.links, u.t.links, there)
    requires forall i | i in there :: i < s.ids.testCase
    ensures |Links(r, s.ids, a)| == |Links(r, u.ids, b)|
    ensures Relinked(EffectTables(s, r, a).links, EffectTables(u, r, b).links,
                     there + Across(s.ids.testCase, a, b, r.testCases.Keys))
  {
    hide Lists, WellFormed, Relinked, LinkList, Block, TestRows, SortedNames, CaseIds, IdUnder;
    var from := s.ids.testCase;
    OrderGivesIds(r, a, from);
    OrderGivesIds(r, b, from);
    LinksRenumbered(r.subTasks, s.ids.subTask, from, a, b, r.testCases.Keys);
    TableRelinked(s.t.links, u.t.links, there, Across(from, a, b, r.testCases.Keys),
                  Links(r, s.ids, a), Links(r, u.ids, b), s.ids.link, from);
  }

  lemma RecordTestsRenumbered(s: State, u: State, r: Task, a: seq<string>, b: seq<string>,
                              there: map<int, int>, back: map<int, int>)
    requires Above(s.ids, s.t) && Above(u.ids, u.t) && s.ids == u.ids
    requires WellFormed(r) && Lists(a, r.testCases.Keys) && Lists(b, r.testCases.Keys)
    requires Renumbered(s.t.testCases, u.t.testCases, there, back)
    ensures Renumbered(EffectTables(s, r, a).testCases, EffectTables(u, r, b).testCases,
                       there + Across(s.ids.testCase, a, b, r.testCases.Keys),
                       back + Across(s.ids.testCase, b, a, r.testCases.Keys))
  {
    hide WellFormed, Renumbered, TestRows, SortedNames, CaseIds, IdUnder, Links;
    var keys, from := r.testCases.Keys, s.ids.testCase;
    var rowsA, rowsB := TestRows(s.ids.problem, r.testCases, a), TestRows(s.ids.problem, r.testCases, b);
    hide Lists;
    RecordRowsRenumbered(s.ids.problem, r.testCases, from, a, b);
    RenumberedUnion(s.t.testCases, u.t.testCases, there, back, Block(rowsA, from), Block(rowsB, from),
                    Across(from, a, b, keys), Across(from, b, a, keys), from);
  }

  /** One record, walked in two ways. */
  lemma RecordOrder(s: State, u: State, r: Task, a: seq<string>, b: seq<string>, there: map<int, int>, back: map<int, int>)
    requires Above(s.ids, s.t) && Above(u.ids, u.t) && s.ids == u.ids
    requires WellFormed(r) && Lists(a, r.testCases.Keys) && Lists(b, r.testCases.Keys)
    requires SameUpToTestCaseIds(s.t, u.t, there, back)
    ensures EffectIds(s.ids, r, a) == EffectIds(u.ids, r, b)
    ensures SameUpToTestCaseIds(EffectTables(s, r, a), EffectTables(u, r, b),
                                there + Across(s.ids.testCase, a, b, r.testCases.Keys),
                                back + Across(s.ids.testCase, b, a, r.testCases.Keys))
  {
    hide Lists, WellFormed, Relinked, Links, Block, TestRows, FileRows, SubTaskRows, SortedNames, Across;
    ListingLength(a, r.testCases.Keys);
    ListingLength(b, r.testCases.Keys);
    assert forall i | i in there :: i < s.ids.testCase;
    RecordLinksRenumbered(s, u, r, a, b, there);
    RecordTestsRenumbered(s, u, r, a, b, there, back);
    hide Renumbered;
  }

  /**
    A whole run: with any two ways of walking every record's tests, the tables agree on
    everything but the numbering of the test cases, and so do the counters.
  */
  lemma {:induction false} RunOrder(s: State, tasks: seq<Task>, a: seq<seq<string>>, b: seq<seq<string>>)
    returns (there: map<int, int>, back: map<int, int>)
    requires Consistent(s) && Walks(tasks, a) && Walks(tasks, b)
    ensures After(s, tasks, a).ids == After(s, tasks, b).ids
    ensures SameUpToTestCaseIds(After(s, tasks, a).t, After(s, tasks, b).t, there, back)
  {
    hide Lists, WellFormed, EffectTables, EffectIds, SameUpToTestCaseIds, Sound, Above, Across;
    if tasks == [] {
      there := map i | i in s.t.testCases :: i;
      back := there;
      Unchanged(s.t, there);
    } else {
      var k := |tasks| - 1;
      there, back := RunOrder(s, tasks[..k], a[..k], b[..k]);
      var before, other := After(s, tasks[..k], a[..k]), After(s, tasks[..k], b[..k]);
      AfterConsistent(s, tasks[..k], a[..k]);
      AfterConsistent(s, tasks[..k], b[..k]);
      RecordOrder(before, other, tasks[k], a[k], b[k], there, back);
      there := there + Across(before.ids.testCase, a[k], b[k], tasks[k].testCases.Keys);
      back := back + Across(before.ids.testCase, b[k], a[k], tasks[k].testCases.Keys);
    }
  }

  lemma Unchanged(t: Tables, there: map<int, int>)
    requires Sound(t) && there == map i | i in t.testCases :: i
    ensures SameUpToTestCaseIds(t, t, there, there)
  {}
}
