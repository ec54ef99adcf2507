/** The IOI database: tables as finite maps from ids to rows, with the constraints of its schema. */
module IoiTables {
  datatype Problem = Problem(year: int, name: string)
  datatype TestCaseRow = TestCaseRow(problem: int, name: string, input: string, output: string)
  datatype SubTaskRow = SubTaskRow(problem: int, name: string, score: int, timeLimit: real, memoryLimit: real)
  datatype LinkRow = LinkRow(subTask: int, testCase: int)
  datatype FileRow = FileRow(problem: int, name: string, content: string)

  datatype Tables = Tables(
    problems: map<int, Problem>,
    testCases: map<int, TestCaseRow>,
    subTasks: map<int, SubTaskRow>,
    links: map<int, LinkRow>,
    files: map<int, FileRow>)

  const EMPTY: Tables := Tables(map[], map[], map[], map[], map[])

  // ---- Constraints: primary keys, unique indexes, foreign keys ----

  predicate ProblemFits(t: Tables, id: int, row: Problem) {
    id !in t.problems && forall i | i in t.problems :: t.problems[i] != row
  }

  predicate TestCaseFits(t: Tables, id: int, row: TestCaseRow) {
    && id !in t.testCases && row.problem in t.problems
    && forall i | i in t.testCases :: !(t.testCases[i].problem == row.problem && t.testCases[i].name == row.name)
  }

  predicate SubTaskFits(t: Tables, id: int, row: SubTaskRow) {
    && id !in t.subTasks && row.problem in t.problems
    && forall i | i in t.subTasks :: !(t.subTasks[i].problem == row.problem && t.subTasks[i].name == row.name)
  }

  predicate LinkFits(t: Tables, id: int, row: LinkRow) {
    id !in t.links && row.subTask in t.subTasks && row.testCase in t.testCases
  }

  predicate FileFits(t: Tables, id: int, row: FileRow) {
    && id !in t.files && row.problem in t.problems
    && forall i | i in t.files :: !(t.files[i].problem == row.problem && t.files[i].name == row.name)
  }

  /** A link joins a subtask and a test case of the same problem. */
  predicate Joins(subTasks: map<int, SubTaskRow>, testCases: map<int, TestCaseRow>, l: LinkRow) {
    && l.subTask in subTasks && l.testCase in testCases
    && subTasks[l.subTask].problem == testCases[l.testCase].problem
  }

  /** Every reference is to a row that is there: the foreign keys of the schema. */
  ghost predicate Sound(t: Tables) {
    && (forall i | i in t.testCases :: t.testCases[i].problem in t.problems)
    && (forall i | i in t.subTasks :: t.subTasks[i].problem in t.problems)
    && (forall i | i in t.files :: t.files[i].problem in t.problems)
    && (forall i | i in t.links :: t.links[i].subTask in t.subTasks && t.links[i].testCase in t.testCases)
  }

  /** No link crosses problems. The schema does not ask for it. */
  ghost predicate LinksJoin(t: Tables) {
    forall i | i in t.links :: Joins(t.subTasks, t.testCases, t.links[i])
  }

  // ---- Ids ----

  datatype Ids = Ids(problem: int, testCase: int, subTask: int, link: int, file: int)

  /** `SELECT COALESCE(MAX(id), 0)`, plus one. */
  function NextID(ids: set<int>): (n: int)
    ensures forall i :: i in ids ==> i < n
    ensures ids == {} ==> n == 1
    ensures ids != {} ==> n - 1 in ids
  {
    if ids == {} then 1 else Max(ids) + 1
  }

  function Max(ids: set<int>): (m: int)
    requires ids != {}
    ensures m in ids && forall i :: i in ids ==> i <= m
  {
    HasMax(ids);
    var m :| m in ids && forall i :: i in ids ==> i <= m;
    m
  }

  lemma {:induction false} HasMax(ids: set<int>)
    ensures ids == {} || exists m :: m in ids && forall i :: i in ids ==> i <= m
    decreases |ids|
  {
    if x: int :| x in ids {
      HasMax(ids - {x});
      if m: int :| m in ids - {x} && forall i :: i in ids - {x} ==> i <= m {
        var n := if m < x then x else m;
        forall i | i in ids ensures i <= n { assert i == x || i in ids - {x}; }
        assert n in ids;
      } else {
        assert ids - {x} == {} && ids == {x};
      }
    } else {
      assert forall x: int :: x !in ids;
      assert ids == {};
    }
  }

  /**
    The lookup tool takes id 0 for "not found". New ids stay clear of it exactly when the
    table was empty or already had an id of at least 0.
  */
  lemma NewIdsPositiveIff(ids: set<int>)
    ensures NextID(ids) >= 1 <==> ids == {} || exists i :: i in ids && i >= 0
  {
    if ids != {} { assert NextID(ids) - 1 in ids; }
  }

  /** With only negative ids in the table, the next id can be 0: the condition above is needed. */
  lemma NegativeIdsCounterexample()
    ensures NextID({-1}) == 0
  {
    assert NextID({-1}) - 1 in {-1};
  }

  function IdsFor(t: Tables): Ids {
    Ids(NextID(t.problems.Keys), NextID(t.testCases.Keys), NextID(t.subTasks.Keys),
        NextID(t.links.Keys), NextID(t.files.Keys))
  }

  /** Every counter is above every id of its table. */
  ghost predicate Above(ids: Ids, t: Tables) {
    && (forall i | i in t.problems :: i < ids.problem)
    && (forall i | i in t.testCases :: i < ids.testCase)
    && (forall i | i in t.subTasks :: i < ids.subTask)
    && (forall i | i in t.links :: i < ids.link)
    && (forall i | i in t.files :: i < ids.file)
  }

  // ---- Rows numbered one after the other ----

  function RowAt<T>(rows: seq<T>, from: int, i: int): T
    requires from <= i < from + |rows|
  {
    rows[i - from]
  }

  /** The rows under consecutive ids, starting at `from`. */
  function Block<T>(rows: seq<T>, from: int): map<int, T> {
    map i | from <= i < from + |rows| :: RowAt(rows, from, i)
  }

  lemma BlockSnoc<T>(m: map<int, T>, rows: seq<T>, row: T, from: int)
    ensures m + Block(rows + [row], from) == (m + Block(rows, from))[from + |rows| := row]
  {}

  lemma BlockEmpty<T>(m: map<int, T>, from: int)
    ensures m + Block([], from) == m
  {}
}
