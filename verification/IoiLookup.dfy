/** Looking up problems, test cases and grader files (ioi_db_lookup/main.go). */
module IoiLookup {
  import opened Prelude
  import opened Sorting
  import opened IoiTables
  import opened IoiEffect
  import opened IoiRuns
  import opened IoiImporter

  datatype LookupError =
    | NoSuchId
    | NotInYear
    | NoSuchName
    | Ambiguous(years: seq<int>)
    | NoTestCase

  // ---- Problems ----

  predicate IsNamed(t: Tables, name: string, id: int) {
    id in t.problems && t.problems[id].name == name
  }

  /** The one problem of this name. */
  ghost predicate OnlyNamed(t: Tables, name: string, id: int) {
    IsNamed(t, name, id) && forall i :: IsNamed(t, name, i) ==> i == id
  }

  function YearOf(t: Tables, id: int): int {
    if id in t.problems then t.problems[id].year else 0
  }

  predicate ByYear(t: Tables, a: int, b: int) {
    YearOf(t, a) < YearOf(t, b) || (YearOf(t, a) == YearOf(t, b) && a <= b)
  }

  function Named(t: Tables, name: string): (ids: set<int>)
    ensures forall i :: i in ids <==> IsNamed(t, name, i)
  {
    set i | i in t.problems && IsNamed(t, name, i)
  }

  lemma ByYearIsTotalOrder(t: Tables)
    ensures TotalOrder((a, b) => ByYear(t, a, b))
  {}

  /** The rows of a name in order of year: there is one such listing. */
  ghost function RowsNamed(t: Tables, name: string): (rows: seq<int>)
    ensures Lists(rows, Named(t, name)) && Sorted(rows, (a, b) => ByYear(t, a, b))
  {
    ByYearIsTotalOrder(t);
    assert exists rows :: Lists(rows, Named(t, name)) && Sorted(rows, (a, b) => ByYear(t, a, b)) by {
      var rows := SortedListingExists(Named(t, name), (a, b) => ByYear(t, a, b));
    }
    var rows :| Lists(rows, Named(t, name)) && Sorted(rows, (a, b) => ByYear(t, a, b));
    rows
  }

  /** `SELECT id, year FROM problems WHERE name = ? ORDER BY year` */
  method QueryByName(t: Tables, name: string) returns (rows: seq<int>)
    ensures rows == RowsNamed(t, name)
  {
    var keys := Named(t, name);
    var left, found := keys, [];
    while left != {}
      invariant left <= keys && Lists(found, keys - left)
      decreases left
    {
      Inhabited(left);
      var id :| id in left;
      ListsSnoc(found, keys - left, id);
      assert keys - left + {id} == keys - (left - {id});
      found := found + [id];
      left := left - {id};
    }
    assert keys - left == keys;
    ByYearIsTotalOrder(t);
    rows := Sort(found, (a, b) => ByYear(t, a, b), keys);
  }

  /** The years of the problems of this name, one for each problem, in order. */
  ghost function YearsNamed(t: Tables, name: string): seq<int> {
    seq(|RowsNamed(t, name)|, k requires 0 <= k < |RowsNamed(t, name)| => YearOf(t, RowsNamed(t, name)[k]))
  }

  /** What a lookup by name alone answers: it succeeds iff one problem has the name, and that one is not under id 0. */
  ghost function ByName(t: Tables, name: string): Result<int, LookupError> {
    if id :| id != 0 && OnlyNamed(t, name, id) then Ok(id)
    else if forall i :: IsNamed(t, name, i) ==> i == 0 then Err(NoSuchName)
    else Err(Ambiguous(YearsNamed(t, name)))
  }

  /** What a lookup answers. */
  ghost predicate Resolved(t: Tables, problemID: int, name: string, year: int, r: Result<int, LookupError>) {
    if problemID != 0 then
      r == if problemID in t.problems then Ok(problemID) else Err(NoSuchId)
    else if year > 0 then
      match r
      case Ok(id) => id in t.problems && t.problems[id] == Problem(year, name)
      case Err(e) => e == NotInYear && !Has(t.problems, Problem(year, name))
    else
      r == ByName(t, name)
  }

  method ResolveProblemID(t: Tables, problemID: int, name: string, year: int) returns (r: Result<int, LookupError>)
    ensures Resolved(t, problemID, name, year, r)
    ensures problemID == 0 && year <= 0 ==> (r.Ok? <==> exists id :: id != 0 && OnlyNamed(t, name, id))
    ensures problemID == 0 && year <= 0 ==> (r == Err(NoSuchName) <==> forall i :: IsNamed(t, name, i) ==> i == 0)
  {
    if problemID != 0 {
      if problemID !in t.problems { return Err(NoSuchId); }
      return Ok(problemID);
    }
    if year > 0 {
      if id :| id in t.problems && t.problems[id] == Problem(year, name) {
        return Ok(id);
      } else {
        return Err(NotInYear);
      }
    }
    var rows := QueryByName(t, name);
    assert forall i :: i in rows <==> IsNamed(t, name, i);
    var id := 0;
    var foundYears := [];
    for k := 0 to |rows|
      invariant id == 0 ==> forall j :: 0 <= j < k ==> rows[j] == 0
      invariant id != 0 ==> id in rows[..k]
      invariant |foundYears| == k && forall j :: 0 <= j < k ==> foundYears[j] == YearOf(t, rows[j])
    {
      assert rows[k] in rows;
      if id == 0 { id := rows[k]; }
      foundYears := foundYears + [t.problems[rows[k]].year];
    }
    if id == 0 { return Err(NoSuchName); }
    if |foundYears| > 1 {
      assert rows[0] != rows[1] && IsNamed(t, name, rows[0]) && IsNamed(t, name, rows[1]);
      assert foundYears == YearsNamed(t, name);
      return Err(Ambiguous(foundYears));
    }
    assert rows == [id];
    assert OnlyNamed(t, name, id);
    return Ok(id);
  }

  /** An ambiguous name has two problems at least, and the answer a year for each. */
  lemma AmbiguousMeansSeveral(t: Tables, name: string)
    requires ByName(t, name).Err? && ByName(t, name).error.Ambiguous?
    ensures ByName(t, name).error.years == YearsNamed(t, name) && |RowsNamed(t, name)| > 1
  {
    var rows := RowsNamed(t, name);
    assert forall i :: i in rows <==> IsNamed(t, name, i);
    var i :| IsNamed(t, name, i) && i != 0;
    assert !OnlyNamed(t, name, i);
    var j :| IsNamed(t, name, j) && j != i;
    assert i in rows && j in rows;
  }

  // ---- Id 0 for "not found" ----

  /**
    The resolver keeps id 0 for "not found". Every name that exactly one problem has is resolved
    iff no problem has id 0, or another problem shares the name of the one that has it.
  */
  lemma SentinelSoundIff(t: Tables)
    ensures (forall name, id :: OnlyNamed(t, name, id) ==> ByName(t, name) == Ok(id))
            <==> 0 !in t.problems || exists j :: j != 0 && IsNamed(t, t.problems[0].name, j)
  {
    if 0 in t.problems && forall j :: IsNamed(t, t.problems[0].name, j) ==> j == 0 {
      assert OnlyNamed(t, t.problems[0].name, 0);
    }
  }

  /** A problem alone under its name, and under id 0, is reported as not found. */
  lemma SentinelCounterexample(t: Tables, r: Result<int, LookupError>)
    requires t.problems == map[0 := Problem(2020, "a")]
    requires Resolved(t, 0, "a", 0, r)
    ensures OnlyNamed(t, "a", 0) && r == Err(NoSuchName)
  {}

  /** A run gives out problem id 0 iff the counter starts at 0 or below and passes it. */
  lemma ZeroGivenIff(s: State, tasks: seq<Task>, orders: seq<seq<string>>)
    requires Consistent(s) && Walks(tasks, orders)
    ensures 0 in After(s, tasks, orders).t.problems && 0 !in s.t.problems
            <==> s.ids.problem <= 0 < s.ids.problem + |tasks|
  {
    hide After, Walks, Sound;
    AfterProblems(s, tasks, orders);
  }

  /** An import gives out problem id 0 iff the table has ids, all negative, and as many records as reach 0. */
  lemma ImportGivesZeroIff(t: Tables, tasks: seq<Task>, orders: seq<seq<string>>)
    requires Sound(t) && Walks(tasks, orders)
    ensures 0 in After(State(t, IdsFor(t)), tasks, orders).t.problems && 0 !in t.problems
            <==> && (exists i :: i in t.problems && i + |tasks| >= 0)
                 && (forall i :: i in t.problems ==> i < 0)
  {
    hide After, Walks, Sound;
    var s := State(t, IdsFor(t));
    ZeroGivenIff(s, tasks, orders);
    var next := NextID(t.problems.Keys);
    if t.problems.Keys != {} { assert next - 1 in t.problems; }
  }

  // ---- Test cases and grader files ----

  lemma EveryTestHasARow(rows: map<int, TestCaseRow>, p: int, tests: map<string, TestCase>, name: string)
    requires HoldsTests(rows, p, tests)
    ensures name in tests ==> exists i :: i in rows && rows[i].problem == p && rows[i].name == name
  {
    if name in tests { assert Has(rows, TestRow(p, tests, name)); }
  }

  lemma Inhabited(ids: set<int>)
    ensures ids != {} ==> exists i :: i in ids
  {
    if i: int :| i in ids {
    } else {
      assert forall x: int :: x !in ids;
      assert ids == {};
    }
  }

  method FetchTestCase(t: Tables, p: int, name: string) returns (r: Result<TestCase, LookupError>)
    ensures r.Ok? ==> Has(t.testCases, TestCaseRow(p, name, r.value.input, r.value.output))
    ensures r.Err? ==> r.error == NoTestCase && forall i | i in t.testCases :: !(t.testCases[i].problem == p && t.testCases[i].name == name)
    ensures forall tests :: HoldsTests(t.testCases, p, tests) ==> r == if name in tests then Ok(tests[name]) else Err(NoTestCase)
  {
    if i :| i in t.testCases && t.testCases[i].name == name && t.testCases[i].problem == p {
      r := Ok(TestCase(t.testCases[i].input, t.testCases[i].output));
    } else {
      r := Err(NoTestCase);
      forall tests | HoldsTests(t.testCases, p, tests) ensures name !in tests {
        EveryTestHasARow(t.testCases, p, tests, name);
      }
    }
  }

  method FetchGraderFiles(t: Tables, p: int) returns (files: map<string, string>)
    ensures forall name :: name in files <==> exists i :: i in t.files && t.files[i].problem == p && t.files[i].name == name
    ensures forall name | name in files :: Has(t.files, FileRow(p, name, files[name]))
    ensures forall m :: HoldsFiles(t.files, p, m) ==> files == m
  {
    files := map[];
    var keys := set i | i in t.files && t.files[i].problem == p;
    var left := keys;
    while left != {}
      invariant left <= keys
      invariant forall i | i in keys && i !in left :: t.files[i].name in files
      invariant forall name | name in files :: Has(t.files, FileRow(p, name, files[name]))
      decreases left
    {
      Inhabited(left);
      var i :| i in left;
      assert t.files[i] == FileRow(p, t.files[i].name, t.files[i].content);
      files := files[t.files[i].name := t.files[i].content];
      left := left - {i};
    }
    forall m | HoldsFiles(t.files, p, m) ensures files == m {
      forall name | name in m ensures name in files {
        assert Has(t.files, FileRow(p, name, m[name]));
      }
      forall name | name in files ensures name in m && files[name] == m[name] {
        assert Has(t.files, FileRow(p, name, files[name]));
      }
    }
  }

  // ---- The plain list of records ----

  /** The tables hold these records: record j under problem id j + 1, and nothing else. */
  ghost predicate Catalog(t: Tables, tasks: seq<Task>) {
    && (forall p :: p in t.problems <==> 1 <= p <= |tasks|)
    && (forall j | 0 <= j < |tasks| :: Stored(t, j + 1, tasks[j]))
    && (forall j, k :: 0 <= j < k < |tasks| ==> Key(tasks[j]) != Key(tasks[k]))
  }

  /** The one record of this name. */
  ghost predicate OnlyRecord(tasks: seq<Task>, name: string, j: int) {
    0 <= j < |tasks| && tasks[j].id == name && forall k :: 0 <= k < |tasks| && tasks[k].id == name ==> k == j
  }

  function RecordsNamed(tasks: seq<Task>, name: string): set<int> {
    set k | 0 <= k < |tasks| && tasks[k].id == name
  }

  /** The years of the records of this name, one for each record, in order; `at` lists the records. */
  ghost predicate YearsAt(tasks: seq<Task>, name: string, years: seq<int>, at: seq<int>) {
    && Lists(at, RecordsNamed(tasks, name)) && |at| == |years|
    && (forall k :: 0 <= k < |at| ==> 0 <= at[k] < |tasks| && years[k] == tasks[at[k]].year)
    && (forall i, j :: 0 <= i < j < |years| ==> years[i] <= years[j])
  }

  /** The record that a lookup is about, said of the list of records alone. */
  ghost predicate Finds(tasks: seq<Task>, problemID: int, name: string, year: int, found: Result<int, LookupError>) {
    if problemID != 0 then
      found == if 1 <= problemID <= |tasks| then Ok(problemID - 1) else Err(NoSuchId)
    else if year > 0 then
      match found
      case Ok(j) => 0 <= j < |tasks| && tasks[j].year == year && tasks[j].id == name
      case Err(e) => e == NotInYear && forall j :: 0 <= j < |tasks| ==> !(tasks[j].year == year && tasks[j].id == name)
    else
      && (found.Ok? <==> exists j :: OnlyRecord(tasks, name, j))
      && match found
         case Ok(j) => OnlyRecord(tasks, name, j)
         case Err(NoSuchName) => RecordsNamed(tasks, name) == {}
         case Err(Ambiguous(years)) => |years| > 1 && exists at :: YearsAt(tasks, name, years, at)
         case Err(_) => false
  }

  /** Answering from the tables is answering from the list: resolving finds the record the list has. */
  lemma ResolvedFromList(t: Tables, tasks: seq<Task>, problemID: int, name: string, year: int, r: Result<int, LookupError>)
    requires Catalog(t, tasks) && Resolved(t, problemID, name, year, r)
    ensures Finds(tasks, problemID, name, year, if r.Ok? then Ok(r.value - 1) else r)
    ensures r.Ok? ==> 1 <= r.value <= |tasks|
  {
    hide HoldsTests, HoldsFiles, ByName;
    forall j | 0 <= j < |tasks| ensures j + 1 in t.problems && t.problems[j + 1] == Key(tasks[j]) {
      assert Stored(t, j + 1, tasks[j]);
    }
    if problemID == 0 && year <= 0 {
      ByNameFromList(t, tasks, name);
    }
  }

  lemma ByNameFromList(t: Tables, tasks: seq<Task>, name: string)
    requires forall p :: p in t.problems <==> 1 <= p <= |tasks|
    requires forall j | 0 <= j < |tasks| :: t.problems[j + 1] == Key(tasks[j])
    ensures var r := ByName(t, name);
            && Finds(tasks, 0, name, 0, if r.Ok? then Ok(r.value - 1) else r)
            && (r.Ok? ==> 1 <= r.value <= |tasks|)
  {
    forall k | 0 <= k < |tasks| ensures IsNamed(t, name, k + 1) <==> tasks[k].id == name {}
    forall j | OnlyRecord(tasks, name, j) ensures OnlyNamed(t, name, j + 1) {
      forall i | IsNamed(t, name, i) ensures i == j + 1 { assert tasks[i - 1].id == name; }
    }
    forall i | OnlyNamed(t, name, i) ensures OnlyRecord(tasks, name, i - 1) {
      assert tasks[i - 1].id == name;
      forall k | 0 <= k < |tasks| && tasks[k].id == name ensures k == i - 1 { assert IsNamed(t, name, k + 1); }
    }
    var r := ByName(t, name);
    if r == Err(NoSuchName) {
      forall k | 0 <= k < |tasks| ensures tasks[k].id != name { assert IsNamed(t, name, k + 1) ==> k + 1 == 0; }
    } else if r.Err? {
      AmbiguousMeansSeveral(t, name);
      YearsFromList(t, tasks, name);
    }
  }

  lemma YearsFromList(t: Tables, tasks: seq<Task>, name: string)
    requires forall p :: p in t.problems <==> 1 <= p <= |tasks|
    requires forall j | 0 <= j < |tasks| :: t.problems[j + 1] == Key(tasks[j])
    ensures exists at :: YearsAt(tasks, name, YearsNamed(t, name), at)
  {
    var rows, years := RowsNamed(t, name), YearsNamed(t, name);
    assert forall i :: i in rows <==> IsNamed(t, name, i);
    assert forall k | 0 <= k < |rows| :: rows[k] in rows;
    var at := seq(|rows|, k requires 0 <= k < |rows| => rows[k] - 1);
    forall k | k in RecordsNamed(tasks, name) ensures k in at {
      assert IsNamed(t, name, k + 1) && k + 1 in rows;
      var i :| 0 <= i < |rows| && rows[i] == k + 1;
      assert at[i] == k;
    }
    forall x | x in at ensures x in RecordsNamed(tasks, name) {
      var i :| 0 <= i < |at| && at[i] == x;
      assert IsNamed(t, name, rows[i]) && tasks[rows[i] - 1].id == name;
    }
    forall i, j | 0 <= i < j < |years| ensures years[i] <= years[j] {
      assert ByYear(t, rows[i], rows[j]);
    }
    forall k | 0 <= k < |at| ensures years[k] == tasks[at[k]].year {
      assert t.problems[at[k] + 1] == Key(tasks[at[k]]);
    }
    assert YearsAt(tasks, name, years, at);
  }

  /** An import into empty tables leaves exactly its records. */
  lemma ImportedCatalog(lines: seq<Line>, orders: seq<seq<string>>)
    requires Importable(map[], lines) && Walks(Tasks(lines), orders)
    ensures Consistent(State(EMPTY, IdsFor(EMPTY)))
    ensures Catalog(After(State(EMPTY, IdsFor(EMPTY)), Tasks(lines), orders).t, Tasks(lines))
  {
    hide After, WellFormed, Lists, Stored, Tasks;
    var start, tasks := State(EMPTY, IdsFor(EMPTY)), Tasks(lines);
    AfterProblems(start, tasks, orders);
    forall j | 0 <= j < |tasks| ensures Stored(After(start, tasks, orders).t, j + 1, tasks[j]) {
      AfterStores(start, tasks, orders, j);
    }
    forall j, k | 0 <= j < k < |tasks| ensures Key(tasks[j]) != Key(tasks[k]) {
      assert Fresh(map[], tasks[..k], tasks[k]);
      assert tasks[..k][j] == tasks[j];
    }
  }

  /** A record of an input that imports, and the `Task` made of it. */
  lemma RecordOfTask(lines: seq<Line>, j: nat)
    requires Importable(map[], lines) && j < |Tasks(lines)|
    ensures j < |RecordLines(lines)| && RecordLines(lines)[j] < |lines| && lines[RecordLines(lines)[j]].Rec?
    ensures var t, rec := Tasks(lines)[j], lines[RecordLines(lines)[j]].record;
      && t.id == (if rec.metadata.id != "" then rec.metadata.id else rec.id)
      && t.year == (if rec.metadata.id != "" then rec.metadata.year else rec.year)
      && t.testCases == (if rec.testCases != map[] then rec.testCases else rec.metadata.testCases)
      && t.files == (if rec.graderFiles != map[] then rec.graderFiles else rec.metadata.graderFiles)
  {
    assert WellFormed(Tasks(lines)[j]);
    hide Normalize, Tasks, RecordLines, Importable, WellFormed, AllNamed, DistinctNames;
    TasksAt(lines);
    var k := RecordLines(lines)[j];
    assert k in RecordLines(lines);
    NormalizeFields(lines[k].record);
  }

  /** The record that a lookup is about has the id and year that were asked for. */
  lemma FoundRecord(lines: seq<Line>, problemID: int, name: string, year: int, j: int)
    requires Importable(map[], lines) && Finds(Tasks(lines), problemID, name, year, Ok(j))
    ensures 0 <= j < |Tasks(lines)| && j < |RecordLines(lines)|
    ensures RecordLines(lines)[j] < |lines| && lines[RecordLines(lines)[j]].Rec?
    ensures problemID != 0 ==> problemID == j + 1
    ensures var t, rec := Tasks(lines)[j], lines[RecordLines(lines)[j]].record;
      && (problemID == 0 ==> name == if rec.metadata.id != "" then rec.metadata.id else rec.id)
      && (problemID == 0 && year > 0 ==> year == if rec.metadata.id != "" then rec.metadata.year else rec.year)
      && t.testCases == (if rec.testCases != map[] then rec.testCases else rec.metadata.testCases)
      && t.files == (if rec.graderFiles != map[] then rec.graderFiles else rec.metadata.graderFiles)
  {
    hide Tasks, RecordLines, Importable;
    RecordOfTask(lines, j);
  }

  /**
    Import, then look up: for every input the import accepts, every batch size and every order
    of walking, a lookup answers what the list of records says. A record that it finds has the
    name and year asked for, and test case and grader files come from that line.
  */
  method ImportThenLookUp(lines: seq<Line>, batchSize: int, problemID: int, name: string, year: int, test: string)
    returns (found: Result<int, LookupError>, r: Result<TestCase, LookupError>, files: map<string, string>)
    requires batchSize > 0 && Importable(map[], lines)
    ensures Finds(Tasks(lines), problemID, name, year, found)
    ensures problemID == 0 && year <= 0 ==> (found.Ok? <==> exists j :: OnlyRecord(Tasks(lines), name, j))
    ensures |Tasks(lines)| == |RecordLines(lines)|
    ensures match found
            case Err(e) => r == Err(e)
            case Ok(j) =>
              && 0 <= j < |RecordLines(lines)| && (problemID != 0 ==> problemID == j + 1)
              && RecordLines(lines)[j] < |lines| && lines[RecordLines(lines)[j]].Rec?
              && var rec := lines[RecordLines(lines)[j]].record;
                 var tests := if rec.testCases != map[] then rec.testCases else rec.metadata.testCases;
              && (problemID == 0 ==> name == if rec.metadata.id != "" then rec.metadata.id else rec.id)
              && (problemID == 0 && year > 0 ==> year == if rec.metadata.id != "" then rec.metadata.year else rec.year)
              && r == (if test in tests then Ok(tests[test]) else Err(NoTestCase))
              && files == (if rec.graderFiles != map[] then rec.graderFiles else rec.metadata.graderFiles)
  {
    hide Consistent, After, Tasks, Importable, Walks, Catalog, HoldsTests, HoldsFiles, OnlyNamed, OnlyRecord, IsNamed, Resolved, Lists,
         RecordLines, RecordsNamed, YearsAt, Normalize;
    TasksAt(lines);
    files := map[];
    ImportedStart();
    var imp := new Import(EMPTY);
    var ok, stop, orders, full := imp.Run(lines, batchSize);
    ImportedCatalog(lines, orders);
    var t := imp.committed;
    var id := ResolveProblemID(t, problemID, name, year);
    ResolvedFromList(t, Tasks(lines), problemID, name, year, id);
    if id.Err? { return id, Err(id.error), files; }
    StoredInCatalog(t, Tasks(lines), id.value);
    FoundRecord(lines, problemID, name, year, id.value - 1);
    r := FetchTestCase(t, id.value, test);
    files := FetchGraderFiles(t, id.value);
    return Ok(id.value - 1), r, files;
  }

  lemma ImportedStart()
    ensures Sound(EMPTY) && EMPTY.problems == map[]
  {}

  lemma StoredInCatalog(t: Tables, tasks: seq<Task>, p: int)
    requires Catalog(t, tasks) && 1 <= p <= |tasks|
    ensures HoldsTests(t.testCases, p, tasks[p - 1].testCases) && HoldsFiles(t.files, p, tasks[p - 1].files)
  {
    hide HoldsTests, HoldsFiles;
  }
}
