/**
  The Codeforces SQLite database (tools/codeforces_jsonl_to_sqlite/main.go): a problem table
  under hashed ids, a case table under (problem id, offset), and the map they stand for.
*/
module CodeforcesTables {
  import opened Prelude

  /** Contest id and problem index. */
  type Key = (int, string)

  datatype Case = Case(input: Option<string>, output: Option<string>)

  datatype Fields = Fields(timeLimit: Option<string>, memoryLimit: Option<string>, description: Option<string>,
                           inputSpec: Option<string>, title: Option<string>,
                           demoInput: Option<string>, demoOutput: Option<string>)

  datatype ProblemRow = ProblemRow(key: Key, fields: Fields)
  datatype Tables = Tables(problems: map<int, ProblemRow>, cases: map<(int, int), Case>)

  datatype TestCase = TestCase(input: string, output: string)
  datatype Record = Record(contestID: int, index: string, timeLimit: string, memoryLimit: string,
                           description: string, inputSpec: string, title: string,
                           demoInput: string, demoOutput: string, testCases: seq<TestCase>)

  /** What the database is to hold of a problem. */
  datatype Entry = Entry(fields: Fields, cases: seq<Case>)

  function NullIfEmpty(v: string): Option<string> {
    if v == "" then None else Some(v)
  }

  function KeyOf(r: Record): Key { (r.contestID, r.index) }

  function FieldsOf(r: Record): Fields {
    Fields(NullIfEmpty(r.timeLimit), NullIfEmpty(r.memoryLimit), NullIfEmpty(r.description), NullIfEmpty(r.inputSpec),
           NullIfEmpty(r.title), NullIfEmpty(r.demoInput), NullIfEmpty(r.demoOutput))
  }

  function CaseOf(c: TestCase): Case { Case(NullIfEmpty(c.input), NullIfEmpty(c.output)) }

  function CasesOf(cs: seq<TestCase>): seq<Case> {
    seq(|cs|, i requires 0 <= i < |cs| => CaseOf(cs[i]))
  }

  function EntryOf(r: Record): Entry { Entry(FieldsOf(r), CasesOf(r.testCases)) }

  function OrEmpty(v: Option<string>): string {
    if v.Some? then v.value else ""
  }

  /** Reading an entry back, NULL as the empty string. */
  function RecordOf(key: Key, e: Entry): Record {
    Record(key.0, key.1, OrEmpty(e.fields.timeLimit), OrEmpty(e.fields.memoryLimit), OrEmpty(e.fields.description),
           OrEmpty(e.fields.inputSpec), OrEmpty(e.fields.title), OrEmpty(e.fields.demoInput), OrEmpty(e.fields.demoOutput),
           seq(|e.cases|, i requires 0 <= i < |e.cases| => TestCase(OrEmpty(e.cases[i].input), OrEmpty(e.cases[i].output))))
  }

  /** Storing empty texts as NULL loses nothing: the record can be read back. */
  lemma EntryKeepsRecord(r: Record)
    ensures RecordOf(KeyOf(r), EntryOf(r)) == r
  {
    assert RecordOf(KeyOf(r), EntryOf(r)).testCases == r.testCases;
  }

  // ---- What tables stand for ----

  /** The cases under `id` are exactly `cs`, by offset. */
  ghost predicate HoldsCases(t: map<(int, int), Case>, id: int, cs: seq<Case>) {
    && (forall i | 0 <= i < |cs| :: (id, i) in t && t[(id, i)] == cs[i])
    && (forall x | x in t && x.0 == id :: 0 <= x.1 < |cs|)
  }

  /** The tables hold the map: each problem under its hash with exactly its cases, and nothing else. */
  ghost predicate Represents(h: (int, string) -> int, t: Tables, m: map<Key, Entry>) {
    && (forall k | k in m :: h(k.0, k.1) in t.problems && t.problems[h(k.0, k.1)] == ProblemRow(k, m[k].fields))
    && (forall id | id in t.problems :: t.problems[id].key in m && id == h(t.problems[id].key.0, t.problems[id].key.1))
    && (forall k | k in m :: HoldsCases(t.cases, h(k.0, k.1), m[k].cases))
    && (forall x | x in t.cases :: x.0 in t.problems)
  }

  /** One map, one pair of tables: nothing about batches or earlier versions is left in them. */
  lemma RepresentsUnique(h: (int, string) -> int, t: Tables, u: Tables, m: map<Key, Entry>)
    requires Represents(h, t, m) && Represents(h, u, m)
    ensures t == u
  {
    SameProblems(h, t, u, m);
    SameProblems(h, u, t, m);
    SameCases(h, t, u, m);
    SameCases(h, u, t, m);
    SameRows(t.problems, u.problems);
  }

  lemma SameRows<V>(a: map<int, V>, b: map<int, V>)
    requires forall k | k in a :: k in b && b[k] == a[k]
    requires forall k | k in b :: k in a
    ensures a == b
  {
    var extra, missing := a.Keys - b.Keys, b.Keys - a.Keys;
    assert forall k: int :: k !in extra && k !in missing;
    assert extra == {} && missing == {};
    assert a.Keys == b.Keys;
    var differ := set k: int | k in a.Keys && a[k] != b[k];
    assert forall k: int :: k !in differ;
    assert differ == {};
  }

  lemma SameProblems(h: (int, string) -> int, t: Tables, u: Tables, m: map<Key, Entry>)
    requires Represents(h, t, m) && Represents(h, u, m)
    ensures forall id | id in t.problems :: id in u.problems && u.problems[id] == t.problems[id]
  {
    hide HoldsCases;
    forall id | id in t.problems ensures id in u.problems && u.problems[id] == t.problems[id] {
      var k := t.problems[id].key;
      assert k in m && id == h(k.0, k.1);
    }
  }

  lemma SameCases(h: (int, string) -> int, t: Tables, u: Tables, m: map<Key, Entry>)
    requires Represents(h, t, m) && Represents(h, u, m)
    ensures forall x | x in t.cases :: x in u.cases && u.cases[x] == t.cases[x]
  {
    forall x | x in t.cases ensures x in u.cases && u.cases[x] == t.cases[x] {
      var k := t.problems[x.0].key;
      assert HoldsCases(t.cases, x.0, m[k].cases) && HoldsCases(u.cases, x.0, m[k].cases);
      assert x == (x.0, x.1);
    }
  }

  // ---- The upsert ----

  /** No other problem of the database has the id of this key. */
  ghost predicate NoClash(h: (int, string) -> int, m: map<Key, Entry>, key: Key) {
    forall k | k in m :: k != key ==> h(k.0, k.1) != h(key.0, key.1)
  }

  /** The rows with the unique (contest, index) pair: the target of ON CONFLICT. */
  predicate HasKey(t: Tables, key: Key) {
    exists id :: id in t.problems && t.problems[id].key == key
  }

  function Without(cases: map<(int, int), Case>, id: int): map<(int, int), Case> {
    map x | x in cases && x.0 != id :: cases[x]
  }

  lemma HasKeyIff(h: (int, string) -> int, t: Tables, m: map<Key, Entry>, key: Key)
    requires Represents(h, t, m)
    ensures HasKey(t, key) <==> key in m
    ensures forall id | id in t.problems && t.problems[id].key == key :: id == h(key.0, key.1)
  {
    hide HoldsCases;
  }

  /** The insert fails iff its hashed id belongs to another problem. */
  lemma ClashIff(h: (int, string) -> int, t: Tables, m: map<Key, Entry>, key: Key)
    requires Represents(h, t, m)
    ensures (!HasKey(t, key) && h(key.0, key.1) in t.problems) <==> !NoClash(h, m, key)
  {
    hide HoldsCases;
    HasKeyIff(h, t, m, key);
    var id := h(key.0, key.1);
    if id in t.problems && t.problems[id].key != key {
      var k := t.problems[id].key;
      assert k in m && h(k.0, k.1) == id;
    }
  }

  /** Upserting the row, dropping the old cases and writing the new ones turns the map at this key. */
  lemma UpsertRepresents(h: (int, string) -> int, t: Tables, u: Tables, m: map<Key, Entry>, key: Key, e: Entry)
    requires Represents(h, t, m) && NoClash(h, m, key)
    requires u.problems == t.problems[h(key.0, key.1) := ProblemRow(key, e.fields)]
    requires HoldsCases(u.cases, h(key.0, key.1), e.cases)
    requires Without(u.cases, h(key.0, key.1)) == Without(t.cases, h(key.0, key.1))
    ensures Represents(h, u, m[key := e])
  {
    var id := h(key.0, key.1);
    forall k | k in m && k != key ensures HoldsCases(u.cases, h(k.0, k.1), m[k].cases) {
      OtherCasesKept(t.cases, u.cases, id, h(k.0, k.1), m[k].cases);
    }
    forall x | x in u.cases ensures x.0 in u.problems {
      if x.0 != id { assert x in Without(u.cases, id); }
    }
  }

  lemma OtherCasesKept(t: map<(int, int), Case>, u: map<(int, int), Case>, id: int, other: int, cs: seq<Case>)
    requires id != other && Without(u, id) == Without(t, id) && HoldsCases(t, other, cs)
    ensures HoldsCases(u, other, cs)
  {
    forall i | 0 <= i < |cs| ensures (other, i) in u && u[(other, i)] == cs[i] {
      assert (other, i) in Without(t, id);
    }
    forall x | x in u && x.0 == other ensures 0 <= x.1 < |cs| {
      assert x in Without(u, id);
    }
  }

  // ---- Last wins ----

  /** The map after importing the records one after the other. */
  function Wins(m: map<Key, Entry>, rs: seq<Record>): map<Key, Entry> {
    if rs == [] then m else Wins(m, rs[..|rs| - 1])[KeyOf(rs[|rs| - 1]) := EntryOf(rs[|rs| - 1])]
  }

  predicate Mentions(rs: seq<Record>, key: Key) {
    exists j :: 0 <= j < |rs| && KeyOf(rs[j]) == key
  }

  ghost predicate LastAt(rs: seq<Record>, key: Key, j: int) {
    0 <= j < |rs| && KeyOf(rs[j]) == key && forall i :: j < i < |rs| ==> KeyOf(rs[i]) != key
  }

  lemma MentionsFront(rs: seq<Record>, key: Key)
    requires rs != []
    ensures Mentions(rs, key) <==> Mentions(rs[..|rs| - 1], key) || KeyOf(rs[|rs| - 1]) == key
  {
    hide KeyOf;
    var front := rs[..|rs| - 1];
    if j :| 0 <= j < |rs| && KeyOf(rs[j]) == key {
      if j < |front| { assert front[j] == rs[j]; }
    }
    if j :| 0 <= j < |front| && KeyOf(front[j]) == key { assert rs[j] == front[j]; }
  }

  /** A problem keeps what the last record that has it says. */
  lemma {:induction false} LastWins(m: map<Key, Entry>, rs: seq<Record>, key: Key, j: int)
    requires LastAt(rs, key, j)
    ensures key in Wins(m, rs) && Wins(m, rs)[key] == EntryOf(rs[j])
  {
    hide KeyOf, EntryOf;
    var n := |rs| - 1;
    var front := rs[..n];
    if j < n {
      assert KeyOf(rs[n]) != key;
      assert front[j] == rs[j] && forall i :: j < i < n ==> front[i] == rs[i];
      LastWins(m, front, key, j);
    }
  }

  /** A problem that no record has stays as it was, there or not. */
  lemma {:induction false} OthersKept(m: map<Key, Entry>, rs: seq<Record>, key: Key)
    requires !Mentions(rs, key)
    ensures key in Wins(m, rs) <==> key in m
    ensures key in m ==> Wins(m, rs)[key] == m[key]
  {
    hide KeyOf, EntryOf, Mentions;
    if rs != [] {
      MentionsFront(rs, key);
      OthersKept(m, rs[..|rs| - 1], key);
    }
  }

  lemma {:induction false} HasLast(rs: seq<Record>, key: Key)
    requires Mentions(rs, key)
    ensures exists j :: LastAt(rs, key, j)
  {
    hide KeyOf, Mentions;
    var n := |rs| - 1;
    if rs == [] {
      NoMentions(key);
    } else if KeyOf(rs[n]) == key {
      assert LastAt(rs, key, n);
    } else {
      var front := rs[..n];
      MentionsFront(rs, key);
      HasLast(front, key);
      var j :| LastAt(front, key, j);
      assert front[j] == rs[j] && forall i :: j < i < n ==> front[i] == rs[i];
      assert LastAt(rs, key, j);
    }
  }

  lemma NoMentions(key: Key)
    ensures !Mentions([], key)
  {}

  /** Importing the same records again changes nothing. */
  lemma WinsAgain(m: map<Key, Entry>, rs: seq<Record>)
    ensures Wins(Wins(m, rs), rs) == Wins(m, rs)
  {
    hide Mentions, LastAt, EntryOf, Wins;
    var once := Wins(m, rs);
    var twice := Wins(once, rs);
    forall k ensures k in twice <==> k in once
             ensures k in once ==> twice[k] == once[k]
    {
      if Mentions(rs, k) {
        HasLast(rs, k);
        var j :| LastAt(rs, k, j);
        LastWins(m, rs, k, j);
        LastWins(once, rs, k, j);
      } else {
        OthersKept(once, rs, k);
      }
    }
  }
}
