/** The batch writer and import loop of tools/codeforces_jsonl_to_sqlite/main.go. */
module CodeforcesImporter {
  import opened Prelude
  import opened CodeforcesTables

  datatype Line = Blank | Malformed | Rec(record: Record)

  /** Records without a contest or an index are skipped. */
  predicate Usable(l: Line) { l.Rec? && l.record.contestID != 0 && l.record.index != "" }

  /** The records that are imported, in order. */
  function Records(lines: seq<Line>): seq<Record> {
    if lines == [] then []
    else
      var k := |lines| - 1;
      if Usable(lines[k]) then Records(lines[..k]) + [lines[k].record] else Records(lines[..k])
  }

  lemma RecordsNext(before: seq<Line>, l: Line)
    ensures Records(before + [l]) == if Usable(l) then Records(before) + [l.record] else Records(before)
  {
    assert (before + [l])[..|before|] == before;
  }

  /** The lines that are imported, in order: records with a contest and an index. */
  ghost function UsableLines(lines: seq<Line>): (at: seq<nat>)
    ensures forall i, j :: 0 <= i < j < |at| ==> at[i] < at[j]
    ensures forall i | 0 <= i < |at| :: at[i] < |lines|
    ensures forall k :: k in at <==>
              0 <= k < |lines| && lines[k].Rec? && lines[k].record.contestID != 0 && lines[k].record.index != ""
  {
    if lines == [] then []
    else
      var n := |lines| - 1;
      if lines[n].Rec? && lines[n].record.contestID != 0 && lines[n].record.index != "" then UsableLines(lines[..n]) + [n]
      else UsableLines(lines[..n])
  }

  lemma {:induction false} RecordsAt(lines: seq<Line>)
    ensures |Records(lines)| == |UsableLines(lines)|
    ensures forall j | 0 <= j < |Records(lines)| ::
              UsableLines(lines)[j] in UsableLines(lines) && Records(lines)[j] == lines[UsableLines(lines)[j]].record
  {
    if lines != [] { RecordsAt(lines[..|lines| - 1]); }
  }

  /** The line neither stops the import by its form nor by the hash of its problem. */
  ghost predicate GoodLine(h: (int, string) -> int, m: map<Key, Entry>, l: Line) {
    !l.Malformed? && (Usable(l) ==> NoClash(h, m, KeyOf(l.record)))
  }

  /** Every line is good where it comes. */
  ghost predicate Importable(h: (int, string) -> int, m: map<Key, Entry>, lines: seq<Line>) {
    forall i :: 0 <= i < |lines| ==> GoodLine(h, Wins(m, Records(lines[..i])), lines[i])
  }

  lemma WinsNext(m: map<Key, Entry>, rs: seq<Record>, r: Record)
    ensures Wins(m, rs + [r]) == Wins(m, rs)[KeyOf(r) := EntryOf(r)]
  {
    assert (rs + [r])[..|rs|] == rs;
  }

  /**
    What is committed stands for whole records: those of the full batches, all but the last
    `left` ones.
  */
  ghost predicate WholeBatches(h: (int, string) -> int, m: map<Key, Entry>, rs: seq<Record>, committed: Tables,
                               batch: int, full: nat, left: nat) {
    && |rs| == full * batch + left && left <= |rs|
    && Represents(h, committed, Wins(m, rs[..|rs| - left]))
  }

  lemma OneMore(h: (int, string) -> int, m: map<Key, Entry>, rs: seq<Record>, r: Record, committed: Tables,
                batch: int, full: nat, left: nat)
    requires WholeBatches(h, m, rs, committed, batch, full, left)
    ensures WholeBatches(h, m, rs + [r], committed, batch, full, left + 1)
  {
    hide Represents, Wins;
    assert (rs + [r])[..|rs| - left] == rs[..|rs| - left];
  }

  lemma BatchDone(h: (int, string) -> int, m: map<Key, Entry>, rs: seq<Record>, committed: Tables, pending: Tables,
                  batch: nat, full: nat)
    requires WholeBatches(h, m, rs, committed, batch, full, batch)
    requires Represents(h, pending, Wins(m, rs))
    ensures WholeBatches(h, m, rs, pending, batch, full + 1, 0)
  {
    hide Represents, Wins;
    assert (full + 1) * batch == full * batch + batch;
    assert rs[..|rs|] == rs;
  }

  class BatchWriter {
    const h: (int, string) -> int
    const batchSize: nat
    var committed: Tables
    var tx: Option<Tables>
    var cnt: nat

    /** `newBatchWriter` */
    constructor (hash: (int, string) -> int, t: Tables, size: int)
      ensures h == hash && batchSize == if size <= 0 then 1000 else size
      ensures committed == t && tx == Some(t) && cnt == 0
    {
      h := hash;
      batchSize := if size <= 0 then 1000 else size;
      committed := t;
      tx := None;
      cnt := 0;
      new;
      Reset();
    }

    method Reset()
      modifies this
      ensures committed == old(committed) && tx == Some(committed) && cnt == 0
    {
      if tx.Some? { tx := None; }
      tx := Some(committed);
      cnt := 0;
    }

    method Flush()
      modifies this
      ensures old(tx).Some? ==> committed == old(tx).value && tx == Some(committed) && cnt == 0
      ensures old(tx).None? ==> committed == old(committed) && tx == old(tx) && cnt == old(cnt)
    {
      if tx.None? { return; }
      committed := tx.value;
      tx := None;
      cnt := 0;
      Reset();
    }

    /** INSERT ... ON CONFLICT (contest_id, problem_index) DO UPDATE. */
    method Upsert(id: int, row: ProblemRow, ghost m: map<Key, Entry>) returns (ok: bool)
      requires tx.Some? && Represents(h, tx.value, m) && id == h(row.key.0, row.key.1)
      modifies this`tx
      ensures ok <==> NoClash(h, m, row.key)
      ensures ok ==> tx == Some(Tables(old(tx).value.problems[id := row], old(tx).value.cases))
      ensures !ok ==> tx == old(tx)
    {
      var t := tx.value;
      HasKeyIff(h, t, m, row.key);
      ClashIff(h, t, m, row.key);
      if found: int :| found in t.problems && t.problems[found].key == row.key {
        tx := Some(t.(problems := t.problems[found := t.problems[found].(fields := row.fields)]));
        ok := true;
      } else if id in t.problems {
        ok := false;
      } else {
        tx := Some(t.(problems := t.problems[id := row]));
        ok := true;
      }
    }

    method Insert(r: Record, ghost m0: map<Key, Entry>, ghost rs: seq<Record>, ghost fullBefore: nat)
      returns (ok: bool, ghost full: nat)
      requires Between(m0, rs, fullBefore)
      modifies this
      ensures ok <==> NoClash(h, Wins(m0, rs), KeyOf(r))
      ensures ok ==> Between(m0, rs + [r], full)
      ensures !ok ==> committed == old(committed) && cnt == old(cnt) && full == fullBefore
    {
      hide Represents, NoClash, HoldsCases, EntryOf, FieldsOf, CaseOf, Wins, WholeBatches;
      ghost var m := Wins(m0, rs);
      full := fullBefore;
      if tx.None? { Reset(); }
      ghost var start := tx.value;
      var id := h(r.contestID, r.index);
      ok := Upsert(id, ProblemRow(KeyOf(r), FieldsOf(r)), m);
      if !ok { return; }
      WriteCases(id, r.testCases);
      EntryHasCases(r);
      UpsertRepresents(h, start, tx.value, m, KeyOf(r), EntryOf(r));
      WinsNext(m0, rs, r);
      OneMore(h, m0, rs, r, committed, batchSize, full, cnt);
      cnt := cnt + 1;
      if cnt >= batchSize {
        BatchDone(h, m0, rs + [r], committed, tx.value, batchSize, full);
        Flush();
        full := full + 1;
      }
    }

    /** DELETE the cases of the problem, then write its new ones. */
    method WriteCases(id: int, cs: seq<TestCase>)
      requires tx.Some?
      modifies this`tx
      ensures tx.Some? && tx.value.problems == old(tx).value.problems
      ensures HoldsCases(tx.value.cases, id, CasesOf(cs))
      ensures Without(tx.value.cases, id) == Without(old(tx).value.cases, id)
    {
      hide CaseOf;
      var t := tx.value;
      ghost var kept := Without(t.cases, id);
      tx := Some(t.(cases := Without(t.cases, id)));
      assert Without(kept, id) == kept;
      for i := 0 to |cs|
        invariant tx.Some? && tx.value.problems == t.problems
        invariant HoldsCases(tx.value.cases, id, CasesOf(cs[..i]))
        invariant Without(tx.value.cases, id) == kept
      {
        var now := tx.value;
        tx := Some(now.(cases := now.cases[(id, i) := CaseOf(cs[i])]));
        NextCase(now.cases, id, cs, i);
      }
      assert cs[..|cs|] == cs;
    }

    function Pending(): Tables reads this { if tx.Some? then tx.value else committed }

    /** Between two records: everything so far is pending, and all but the current batch is committed. */
    ghost predicate Between(m0: map<Key, Entry>, rs: seq<Record>, full: nat)
      reads this
    {
      && Represents(h, Pending(), Wins(m0, rs)) && (tx.None? ==> cnt == 0)
      && cnt < batchSize && WholeBatches(h, m0, rs, committed, batchSize, full, cnt)
    }
  }

  /** The first line that is not good is line `stop`; committed are the whole batches before it. */
  ghost predicate Stopped(h: (int, string) -> int, m: map<Key, Entry>, lines: seq<Line>, committed: Tables,
                          batch: int, stop: nat, full: nat, left: nat) {
    && stop < |lines| && Importable(h, m, lines[..stop])
    && !GoodLine(h, Wins(m, Records(lines[..stop])), lines[stop])
    && left < batch && WholeBatches(h, m, Records(lines[..stop]), committed, batch, full, left)
  }

  lemma ImportableNext(h: (int, string) -> int, m: map<Key, Entry>, before: seq<Line>, l: Line)
    requires Importable(h, m, before)
    ensures Importable(h, m, before + [l]) <==> GoodLine(h, Wins(m, Records(before)), l)
  {
    hide GoodLine, Wins, Records;
    var all := before + [l];
    assert all[..|before|] == before;
    assert forall i | 0 <= i < |before| :: all[..i] == before[..i] && all[i] == before[i];
  }

  /** What stops the import stops it whatever follows. */
  lemma StopsWhateverFollows(h: (int, string) -> int, m: map<Key, Entry>, lines: seq<Line>, all: seq<Line>,
                             committed: Tables, batch: int, stop: nat, full: nat, left: nat)
    requires Stopped(h, m, lines, committed, batch, stop, full, left) && lines <= all
    ensures Stopped(h, m, all, committed, batch, stop, full, left) && !Importable(h, m, all)
  {
    hide GoodLine, Wins, Records, WholeBatches;
    assert all[..stop] == lines[..stop] && all[stop] == lines[stop];
  }

  /** One file's lines, up to the first that stops the import. */
  method ImportFile(lines: seq<Line>, w: BatchWriter, ghost m0: map<Key, Entry>, ghost before: seq<Line>, ghost fullBefore: nat)
    returns (ok: bool, count: nat, ghost stop: nat, ghost full: nat)
    requires Importable(w.h, m0, before) && w.Between(m0, Records(before), fullBefore)
    modifies w
    ensures ok ==> count == |Records(before + lines)| - |Records(before)|
    ensures ok ==> Importable(w.h, m0, before + lines) && w.Between(m0, Records(before + lines), full)
    ensures !ok ==> Stopped(w.h, m0, before + lines, w.committed, w.batchSize, stop, full, w.cnt)
  {
    hide Represents, NoClash, Wins, WholeBatches, Records, Importable;
    count, full, stop := 0, fullBefore, 0;
    assert before + lines[..0] == before;
    var i := 0;
    while i < |lines|
      invariant i <= |lines| && Importable(w.h, m0, before + lines[..i])
      invariant w.Between(m0, Records(before + lines[..i]), full)
      invariant count == |Records(before + lines[..i])| - |Records(before)|
    {
      ghost var sofar := before + lines[..i];
      stop := |sofar|;
      assert before + lines[..i + 1] == sofar + [lines[i]];
      assert (before + lines)[..stop] == sofar && (before + lines)[stop] == lines[i];
      RecordsNext(sofar, lines[i]);
      ImportableNext(w.h, m0, sofar, lines[i]);
      if lines[i].Malformed? { ok := false; return; }
      if Usable(lines[i]) {
        ok, full := w.Insert(lines[i].record, m0, Records(sofar), full);
        if !ok { return; }
        count := count + 1;
      }
      i := i + 1;
    }
    assert lines[..|lines|] == lines;
    ok := true;
  }

  lemma EntryHasCases(r: Record)
    ensures EntryOf(r).cases == CasesOf(r.testCases) && EntryOf(r).fields == FieldsOf(r)
  {}

  lemma NextCase(t: map<(int, int), Case>, id: int, cs: seq<TestCase>, i: nat)
    requires i < |cs| && HoldsCases(t, id, CasesOf(cs[..i]))
    ensures HoldsCases(t[(id, i) := CaseOf(cs[i])], id, CasesOf(cs[..i + 1]))
    ensures Without(t[(id, i) := CaseOf(cs[i])], id) == Without(t, id)
  {
    hide CaseOf;
    var u := t[(id, i) := CaseOf(cs[i])];
    forall j | 0 <= j < i + 1 ensures (id, j) in u && u[(id, j)] == CasesOf(cs[..i + 1])[j] {
      if j < i { assert u[(id, j)] == CasesOf(cs[..i])[j]; }
    }
  }

  // ---- Whole imports ----

  function Flat(files: seq<seq<Line>>): seq<Line> {
    if files == [] then [] else Flat(files[..|files| - 1]) + files[|files| - 1]
  }

  lemma {:induction false} FlatPrefix(files: seq<seq<Line>>, k: nat)
    requires k < |files|
    ensures Flat(files[..k + 1]) == Flat(files[..k]) + files[k]
    ensures Flat(files[..k + 1]) <= Flat(files)
    decreases |files| - k
  {
    assert files[..k + 1][..k] == files[..k];
    if k + 1 < |files| {
      FlatPrefix(files, k + 1);
      assert files[..k + 2][..k + 1] == files[..k + 1];
    } else {
      assert files[..k + 1] == files;
    }
  }

  lemma AtStart(h: (int, string) -> int, m: map<Key, Entry>, t: Tables, batch: int)
    requires Represents(h, t, m)
    ensures Records([]) == [] && Wins(m, []) == m && Flat([]) == []
    ensures WholeBatches(h, m, [], t, batch, 0, 0) && Importable(h, m, [])
  {}

  lemma NoFilesYet()
    ensures Flat([]) == [] && Records([]) == []
  {}

  lemma NextFile(files: seq<seq<Line>>, k: nat)
    requires k < |files|
    ensures Flat(files[..k + 1]) == Flat(files[..k]) + files[k]
  {
    assert files[..k + 1][..k] == files[..k];
  }

  /** What stops a file stops the import of all files. */
  lemma FileStops(h: (int, string) -> int, m: map<Key, Entry>, files: seq<seq<Line>>, k: nat,
                  committed: Tables, batch: int, stop: nat, full: nat, left: nat)
    requires k < |files| && Stopped(h, m, Flat(files[..k]) + files[k], committed, batch, stop, full, left)
    ensures Stopped(h, m, Flat(files), committed, batch, stop, full, left) && !Importable(h, m, Flat(files))
  {
    hide Stopped, Importable, Flat;
    FlatPrefix(files, k);
    StopsWhateverFollows(h, m, Flat(files[..k]) + files[k], Flat(files), committed, batch, stop, full, left);
  }

  /** The files in order, up to the first line that stops the import. */
  method ImportFiles(files: seq<seq<Line>>, w: BatchWriter, ghost m0: map<Key, Entry>)
    returns (ok: bool, total: nat, ghost stop: nat, ghost full: nat)
    requires w.Between(m0, [], 0) && Importable(w.h, m0, [])
    modifies w
    ensures ok <==> Importable(w.h, m0, Flat(files))
    ensures ok ==> w.Between(m0, Records(Flat(files)), full) && total == |Records(Flat(files))|
    ensures !ok ==> Stopped(w.h, m0, Flat(files), w.committed, w.batchSize, stop, full, w.cnt)
  {
    hide *;
    ok, total, stop, full := true, 0, 0, 0;
    NoFilesYet();
    assert files[..0] == [];
    var k := 0;
    while k < |files|
      invariant ok && k <= |files| && Importable(w.h, m0, Flat(files[..k]))
      invariant w.Between(m0, Records(Flat(files[..k])), full) && total == |Records(Flat(files[..k]))|
    {
      NextFile(files, k);
      var n;
      ok, n, stop, full := ImportFile(files[k], w, m0, Flat(files[..k]), full);
      if !ok {
        FileStops(w.h, m0, files, k, w.committed, w.batchSize, stop, full, w.cnt);
        return;
      }
      total := total + n;
      k := k + 1;
    }
    assert files[..|files|] == files;
  }

  /**
    All the files, then a last flush. The import goes through exactly when every line is good
    where it comes; then the database stands for the last-wins map. Otherwise it stands for
    the records before the first bad line, up to a multiple of the batch size.
  */
  method Import(h: (int, string) -> int, t: Tables, files: seq<seq<Line>>, size: int, ghost m0: map<Key, Entry>)
    returns (ok: bool, committed: Tables, total: nat, ghost stop: nat, ghost full: nat, ghost left: nat)
    requires Represents(h, t, m0)
    ensures files == [] ==> !ok && committed == t
    ensures files != [] ==> (ok <==> Importable(h, m0, Flat(files)))
    ensures ok ==> Represents(h, committed, Wins(m0, Records(Flat(files)))) && total == |Records(Flat(files))|
    ensures files != [] && !ok ==> Stopped(h, m0, Flat(files), committed, if size <= 0 then 1000 else size, stop, full, left)
  {
    hide Represents, NoClash, Wins, GoodLine, Records, Importable, WholeBatches, Flat, Stopped;
    ok, committed, total, stop, full, left := false, t, 0, 0, 0, 0;
    if files == [] { return; }
    var w := new BatchWriter(h, t, size);
    AtStart(h, m0, t, w.batchSize);
    ok, total, stop, full := ImportFiles(files, w, m0);
    left := w.cnt;
    if ok { w.Flush(); }
    committed := w.committed;
  }

  // ---- What an import leaves, said of the lines ----

  /** A stored text: NULL just when it is empty. */
  predicate Holds(field: Option<string>, text: string) {
    match field
    case None => text == ""
    case Some(v) => v == text && v != ""
  }

  /**
    The last line for a problem is what the tables hold of it: its row under the hashed id,
    its cases by offset, no others, and NULL for the empty texts alone.
  */
  lemma LastLineStored(h: (int, string) -> int, t: Tables, m: map<Key, Entry>, lines: seq<Line>, k: nat)
    requires Represents(h, t, Wins(m, Records(lines)))
    requires k < |lines| && lines[k].Rec? && lines[k].record.contestID != 0 && lines[k].record.index != ""
    requires forall i | k < i < |lines| ::
               !(lines[i].Rec? && lines[i].record.contestID == lines[k].record.contestID
                 && lines[i].record.index == lines[k].record.index)
    ensures var r := lines[k].record;
            var id := h(r.contestID, r.index);
      && id in t.problems && t.problems[id].key == (r.contestID, r.index)
      && Holds(t.problems[id].fields.timeLimit, r.timeLimit) && Holds(t.problems[id].fields.memoryLimit, r.memoryLimit)
      && Holds(t.problems[id].fields.description, r.description) && Holds(t.problems[id].fields.inputSpec, r.inputSpec)
      && Holds(t.problems[id].fields.title, r.title) && Holds(t.problems[id].fields.demoInput, r.demoInput)
      && Holds(t.problems[id].fields.demoOutput, r.demoOutput)
      && (forall i | 0 <= i < |r.testCases| :: (id, i) in t.cases
            && Holds(t.cases[(id, i)].input, r.testCases[i].input) && Holds(t.cases[(id, i)].output, r.testCases[i].output))
      && (forall x | x in t.cases && x.0 == id :: 0 <= x.1 < |r.testCases|)
  {
    hide Records, UsableLines, Wins, EntryOf, Represents, Holds;
    RecordsAt(lines);
    var at, rs := UsableLines(lines), Records(lines);
    assert k in at;
    var j :| 0 <= j < |at| && at[j] == k;
    forall i | j < i < |rs| ensures KeyOf(rs[i]) != KeyOf(rs[j]) { assert at[i] > k && at[i] in at; }
    LastWins(m, rs, KeyOf(rs[j]), j);
    EntryStored(h, t, Wins(m, rs), rs[j]);
  }

  lemma EntryStored(h: (int, string) -> int, t: Tables, m: map<Key, Entry>, r: Record)
    requires Represents(h, t, m) && KeyOf(r) in m && m[KeyOf(r)] == EntryOf(r)
    ensures var id := h(r.contestID, r.index);
      && id in t.problems && t.problems[id].key == (r.contestID, r.index)
      && Holds(t.problems[id].fields.timeLimit, r.timeLimit) && Holds(t.problems[id].fields.memoryLimit, r.memoryLimit)
      && Holds(t.problems[id].fields.description, r.description) && Holds(t.problems[id].fields.inputSpec, r.inputSpec)
      && Holds(t.problems[id].fields.title, r.title) && Holds(t.problems[id].fields.demoInput, r.demoInput)
      && Holds(t.problems[id].fields.demoOutput, r.demoOutput)
      && (forall i | 0 <= i < |r.testCases| :: (id, i) in t.cases
            && Holds(t.cases[(id, i)].input, r.testCases[i].input) && Holds(t.cases[(id, i)].output, r.testCases[i].output))
      && (forall x | x in t.cases && x.0 == id :: 0 <= x.1 < |r.testCases|)
  {
    var id := h(r.contestID, r.index);
    assert HoldsCases(t.cases, id, EntryOf(r).cases);
    forall i | 0 <= i < |r.testCases| ensures (id, i) in t.cases && t.cases[(id, i)] == CaseOf(r.testCases[i]) {
      assert EntryOf(r).cases[i] == CaseOf(r.testCases[i]);
    }
  }

  /** A problem that no line has stays as it was: there with its row and cases, or not there. */
  lemma OthersStay(h: (int, string) -> int, t: Tables, m: map<Key, Entry>, lines: seq<Line>, key: Key)
    requires Represents(h, t, Wins(m, Records(lines)))
    requires forall i | 0 <= i < |lines| ::
               !(lines[i].Rec? && lines[i].record.contestID == key.0 && lines[i].record.index == key.1)
    ensures key in m ==> h(key.0, key.1) in t.problems && t.problems[h(key.0, key.1)] == ProblemRow(key, m[key].fields)
                         && HoldsCases(t.cases, h(key.0, key.1), m[key].cases)
    ensures key !in m ==> forall id | id in t.problems :: t.problems[id].key != key
  {
    hide Records, UsableLines, Wins, HoldsCases;
    RecordsAt(lines);
    var at, rs := UsableLines(lines), Records(lines);
    forall j | 0 <= j < |rs| ensures KeyOf(rs[j]) != key { assert at[j] in at; }
    OthersKept(m, rs, key);
  }

  // ---- When an import goes through, said without order ----

  ghost predicate NoCollision(h: (int, string) -> int, m: map<Key, Entry>) {
    forall k | k in m :: NoClash(h, m, k)
  }

  lemma NoCollisionNext(h: (int, string) -> int, m: map<Key, Entry>, key: Key, e: Entry)
    ensures NoCollision(h, m[key := e]) <==> NoCollision(h, m) && NoClash(h, m, key)
  {
    var now := m[key := e];
    if NoCollision(h, now) {
      assert NoClash(h, now, key);
      forall k | k in m ensures NoClash(h, m, k) { assert NoClash(h, now, k); }
    }
    if NoCollision(h, m) && NoClash(h, m, key) {
      forall k | k in now ensures NoClash(h, now, k) {
        if k in m { assert NoClash(h, m, k); }
      }
    }
  }

  lemma NoCollisionIff(h: (int, string) -> int, m: map<Key, Entry>)
    ensures NoCollision(h, m) <==> forall k, k' :: k in m && k' in m && k != k' ==> h(k.0, k.1) != h(k'.0, k'.1)
  {
    if NoCollision(h, m) {
      forall k, k' | k in m && k' in m && k != k' ensures h(k.0, k.1) != h(k'.0, k'.1) { assert NoClash(h, m, k); }
    }
  }

  /** Every line parses, and no two of all the problems, old and new, share a hash: nothing else stops an import. */
  lemma ImportableIff(h: (int, string) -> int, m: map<Key, Entry>, lines: seq<Line>)
    requires forall k, k' :: k in m && k' in m && k != k' ==> h(k.0, k.1) != h(k'.0, k'.1)
    ensures var now := Wins(m, Records(lines));
      Importable(h, m, lines)
      <==> (forall i :: 0 <= i < |lines| ==> !lines[i].Malformed?)
           && (forall k, k' :: k in now && k' in now && k != k' ==> h(k.0, k.1) != h(k'.0, k'.1))
  {
    hide Importable, Wins, Records;
    NoCollisionIff(h, m);
    NoCollisionIff(h, Wins(m, Records(lines)));
    ImportableWithoutCollision(h, m, lines);
  }

  lemma {:induction false} ImportableWithoutCollision(h: (int, string) -> int, m: map<Key, Entry>, lines: seq<Line>)
    requires NoCollision(h, m)
    ensures Importable(h, m, lines)
            <==> (forall i :: 0 <= i < |lines| ==> !lines[i].Malformed?) && NoCollision(h, Wins(m, Records(lines)))
  {
    hide NoCollision, NoClash, Wins, Records;
    if lines == [] {
      assert lines == [] && Records(lines) == [] && Wins(m, Records(lines)) == m by { AtNothing(m); }
    } else {
      var k := |lines| - 1;
      var before, l := lines[..k], lines[k];
      assert lines == before + [l];
      ImportableWithoutCollision(h, m, before);
      ImportableOfFront(h, m, before, l);
      RecordsNext(before, l);
      if Usable(l) {
        WinsNext(m, Records(before), l.record);
        NoCollisionNext(h, Wins(m, Records(before)), KeyOf(l.record), EntryOf(l.record));
      }
    }
  }

  lemma AtNothing(m: map<Key, Entry>)
    ensures Records([]) == [] && Wins(m, []) == m
  {}

  lemma ImportableOfFront(h: (int, string) -> int, m: map<Key, Entry>, before: seq<Line>, l: Line)
    ensures Importable(h, m, before + [l]) <==> Importable(h, m, before) && GoodLine(h, Wins(m, Records(before)), l)
  {
    hide GoodLine, Wins, Records;
    var all := before + [l];
    if Importable(h, m, all) {
      forall i | 0 <= i < |before| ensures GoodLine(h, Wins(m, Records(before[..i])), before[i]) {
        assert all[..i] == before[..i] && all[i] == before[i];
        assert GoodLine(h, Wins(m, Records(all[..i])), all[i]);
      }
    }
    if Importable(h, m, before) { ImportableNext(h, m, before, l); }
  }

  // ---- Batch sizes and imports repeated ----

  /** The tables an import leaves do not depend on the batch size. */
  method AnyBatchSize(h: (int, string) -> int, t: Tables, files: seq<seq<Line>>, size: int, other: int, ghost m0: map<Key, Entry>)
    returns (okA: bool, okB: bool, a: Tables, b: Tables)
    requires Represents(h, t, m0)
    ensures okA == okB
    ensures okA ==> a == b
  {
    hide Represents, Wins, Records, Importable, Flat;
    var n, m;
    ghost var stop, full, left;
    okA, a, n, stop, full, left := Import(h, t, files, size, m0);
    okB, b, m, stop, full, left := Import(h, t, files, other, m0);
    if okA { RepresentsUnique(h, a, b, Wins(m0, Records(Flat(files)))); }
  }

  /** No two problems of a database have the same id. */
  lemma KeptKeysNeverClash(h: (int, string) -> int, t: Tables, m: map<Key, Entry>, key: Key)
    requires Represents(h, t, m) && key in m
    ensures NoClash(h, m, key)
  {
    hide HoldsCases;
  }

  lemma {:induction false} WinsKeepsKeys(m: map<Key, Entry>, rs: seq<Record>)
    requires forall j :: 0 <= j < |rs| ==> KeyOf(rs[j]) in m
    ensures Wins(m, rs).Keys == m.Keys
  {
    hide KeyOf, EntryOf;
    if rs != [] { WinsKeepsKeys(m, rs[..|rs| - 1]); }
  }

  lemma {:induction false} WinsHasRecords(m: map<Key, Entry>, rs: seq<Record>, j: nat)
    requires j < |rs|
    ensures KeyOf(rs[j]) in Wins(m, rs)
  {
    hide KeyOf, EntryOf;
    if j < |rs| - 1 { WinsHasRecords(m, rs[..|rs| - 1], j); }
  }

  lemma {:induction false} RecordsOf(lines: seq<Line>, i: nat)
    requires i < |lines| && Usable(lines[i])
    ensures |Records(lines[..i])| < |Records(lines)|
    ensures Records(lines[..i]) == Records(lines)[..|Records(lines[..i])|]
    ensures Records(lines)[|Records(lines[..i])|] == lines[i].record
    decreases |lines|
  {
    var k := |lines| - 1;
    if i < k {
      assert lines[..k][..i] == lines[..i];
      RecordsOf(lines[..k], i);
    }
  }

  lemma AgainImportable(h: (int, string) -> int, t: Tables, m: map<Key, Entry>, lines: seq<Line>)
    requires Importable(h, m, lines) && Represents(h, t, Wins(m, Records(lines)))
    ensures Importable(h, Wins(m, Records(lines)), lines)
  {
    hide Represents, Wins, Records, KeyOf;
    var once, rs := Wins(m, Records(lines)), Records(lines);
    forall j | 0 <= j < |rs| ensures KeyOf(rs[j]) in once { WinsHasRecords(m, rs, j); }
    forall i | 0 <= i < |lines| ensures GoodLine(h, Wins(once, Records(lines[..i])), lines[i]) {
      assert GoodLine(h, Wins(m, Records(lines[..i])), lines[i]);
      if Usable(lines[i]) {
        RecordsOf(lines, i);
        WinsKeepsKeys(once, Records(lines[..i]));
        KeptKeysNeverClash(h, t, once, KeyOf(lines[i].record));
      }
    }
  }

  /** Importing the same files a second time goes through and changes nothing. */
  method ImportAgain(h: (int, string) -> int, t: Tables, files: seq<seq<Line>>, size: int, other: int, ghost m0: map<Key, Entry>)
    returns (ok: bool, once: Tables, okAgain: bool, twice: Tables)
    requires Represents(h, t, m0)
    ensures ok ==> okAgain && twice == once
  {
    hide Represents, Wins, Records, Importable, Flat;
    var n;
    ghost var stop, full, left;
    okAgain := false;
    ok, once, n, stop, full, left := Import(h, t, files, size, m0);
    twice := once;
    if !ok { return; }
    ghost var rs := Records(Flat(files));
    AgainImportable(h, once, m0, Flat(files));
    okAgain, twice, n, stop, full, left := Import(h, once, files, other, Wins(m0, rs));
    WinsAgain(m0, rs);
    RepresentsUnique(h, once, twice, Wins(m0, rs));
  }
}
