/** The container builder: streams test data and index, then puts the header in front. */
module CfbinBuilder {
  import opened Prelude
  import opened LittleEndian
  import opened CfbinFormat

  datatype TestCase = TestCase(input: bytes, output: bytes)

  datatype Record = Record(contestID: int, index: bytes, cases: seq<TestCase>)

  datatype Line = Blank | Malformed | Rec(record: Record)

  predicate Skipped(l: Line) {
    l.Blank? || (l.Rec? && (l.record.contestID == 0 || l.record.index == []))
  }

  predicate Fails(l: Line) {
    l.Malformed? || (!Skipped(l) && |l.record.index| > 255)
  }

  /** The records among `lines`, in order, without those the import skips. */
  function Records(lines: seq<Line>): seq<Record> {
    if lines == [] then []
    else
      var n := |lines| - 1;
      if lines[n].Rec? && !Skipped(lines[n]) then Records(lines[..n]) + [lines[n].record] else Records(lines[..n])
  }

  /** The lines that an import writes, in order: records with a contest and an index. */
  ghost function UsableLines(lines: seq<Line>): (at: seq<nat>)
    ensures forall i, j :: 0 <= i < j < |at| ==> at[i] < at[j]
    ensures forall i | 0 <= i < |at| :: at[i] < |lines|
    ensures forall k :: k in at <==>
              0 <= k < |lines| && lines[k].Rec? && lines[k].record.contestID != 0 && lines[k].record.index != []
  {
    if lines == [] then []
    else
      var n := |lines| - 1;
      if lines[n].Rec? && lines[n].record.contestID != 0 && lines[n].record.index != [] then UsableLines(lines[..n]) + [n]
      else UsableLines(lines[..n])
  }

  lemma {:induction false} RecordsAt(lines: seq<Line>)
    ensures |Records(lines)| == |UsableLines(lines)|
    ensures forall j | 0 <= j < |Records(lines)| ::
              UsableLines(lines)[j] in UsableLines(lines) && Records(lines)[j] == lines[UsableLines(lines)[j]].record
  {
    if lines != [] { RecordsAt(lines[..|lines| - 1]); }
  }

  /** A line that stops the build: it is no record, or one whose index is too long. */
  lemma FailsIff(l: Line)
    ensures Fails(l)
            <==> l.Malformed?
                 || (l.Rec? && l.record.contestID != 0 && l.record.index != [] && |l.record.index| > 255)
  {}

  // ---- What the file should contain ----

  function CaseData(cs: seq<TestCase>): bytes {
    if cs == [] then [] else CaseData(cs[..|cs| - 1]) + cs[|cs| - 1].input + cs[|cs| - 1].output
  }

  function Data(rs: seq<Record>): bytes {
    if rs == [] then [] else Data(rs[..|rs| - 1]) + CaseData(rs[|rs| - 1].cases)
  }

  /** The fields written for a case whose input starts at `pos`, each cut to its width. */
  function CaseAt(c: TestCase, pos: nat): CaseEntry {
    CaseEntry(pos % UINT64, |c.input| % UINT32, (pos + |c.input|) % UINT64, |c.output| % UINT32)
  }

  function CasesAt(cs: seq<TestCase>, pos: nat): (es: seq<CaseEntry>)
    ensures |es| == |cs|
  {
    if cs == [] then []
    else
      var n := |cs| - 1;
      CasesAt(cs[..n], pos) + [CaseAt(cs[n], pos + |CaseData(cs[..n])|)]
  }

  function EntryAt(r: Record, pos: nat): ProblemEntry {
    ProblemEntry(r.contestID % UINT32, r.index, CasesAt(r.cases, pos))
  }

  function Entries(rs: seq<Record>): seq<ProblemEntry> {
    if rs == [] then []
    else
      var n := |rs| - 1;
      Entries(rs[..n]) + [EntryAt(rs[n], |Data(rs[..n])|)]
  }

  function Zeros(n: nat): (z: bytes)
    ensures |z| == n
  {
    seq(n, _ => 0)
  }

  /** The finished container. */
  function File(rs: seq<Record>): bytes {
    var index := EncodeIndex(Entries(rs));
    WriteHeader(NewHeader(|Data(rs)| % UINT64, |index| % UINT64)) + Data(rs) + index
  }

  lemma {:induction false} EncodeCasesSnoc(cs: seq<CaseEntry>, c: CaseEntry)
    ensures EncodeCases(cs + [c]) == EncodeCases(cs) + EncodeCase(c)
  {
    if cs == [] {
      assert EncodeCases([c]) == EncodeCase(c) + [];
    } else {
      assert (cs + [c])[1..] == cs[1..] + [c];
      EncodeCasesSnoc(cs[1..], c);
    }
  }

  lemma {:induction false} EncodeIndexSnoc(es: seq<ProblemEntry>, e: ProblemEntry)
    ensures EncodeIndex(es + [e]) == EncodeIndex(es) + EncodeEntry(e)
  {
    if es == [] {
      assert EncodeIndex([e]) == EncodeEntry(e) + [];
    } else {
      assert (es + [e])[1..] == es[1..] + [e];
      EncodeIndexSnoc(es[1..], e);
    }
  }

  lemma OneMoreCase(cs: seq<TestCase>, pos: nat, k: nat)
    requires k < |cs|
    ensures CaseData(cs[..k + 1]) == CaseData(cs[..k]) + cs[k].input + cs[k].output
    ensures EncodeCases(CasesAt(cs[..k + 1], pos))
            == EncodeCases(CasesAt(cs[..k], pos)) + EncodeCase(CaseAt(cs[k], pos + |CaseData(cs[..k])|))
  {
    hide EncodeCases;
    assert cs[..k + 1][..k] == cs[..k];
    EncodeCasesSnoc(CasesAt(cs[..k], pos), CaseAt(cs[k], pos + |CaseData(cs[..k])|));
  }

  lemma NoCases(cs: seq<TestCase>, pos: nat)
    ensures EncodeCases(CasesAt(cs[..0], pos)) == [] && CaseData(cs[..0]) == []
  {}

  lemma OneMoreRecord(rs: seq<Record>, r: Record)
    ensures Data(rs + [r]) == Data(rs) + CaseData(r.cases)
    ensures EncodeIndex(Entries(rs + [r])) == EncodeIndex(Entries(rs)) + EncodeEntry(EntryAt(r, |Data(rs)|))
  {
    assert (rs + [r])[..|rs|] == rs;
    EncodeIndexSnoc(Entries(rs), EntryAt(r, |Data(rs)|));
  }

  lemma Appended(rs: seq<Record>, r: Record, out: bytes, index: bytes)
    requires out == Zeros(HEADER_SIZE) + Data(rs) && index == EncodeIndex(Entries(rs))
    ensures Zeros(HEADER_SIZE) + Data(rs + [r]) == out + CaseData(r.cases)
    ensures |Data(rs + [r])| == |Data(rs)| + |CaseData(r.cases)|
    ensures EncodeIndex(Entries(rs + [r])) ==
            index + EncodeHead(r.contestID % UINT32, r.index, |r.cases|) + EncodeCases(CasesAt(r.cases, |Data(rs)|))
  {
    OneMoreRecord(rs, r);
    hide LE, EncodeHead, EncodeCases, EncodeIndex, CaseData, CasesAt, Data, Entries, Zeros;
    var head := EncodeHead(r.contestID % UINT32, r.index, |r.cases|);
    Regroup(index, head, EncodeCases(CasesAt(r.cases, |Data(rs)|)));
    Regroup(Zeros(HEADER_SIZE), Data(rs), CaseData(r.cases));
  }

  lemma OneMoreLine(lines: seq<Line>, i: nat)
    requires i < |lines|
    ensures Records(lines[..i + 1]) ==
            if lines[i].Rec? && !Skipped(lines[i]) then Records(lines[..i]) + [lines[i].record] else Records(lines[..i])
    ensures lines[..i + 1] == lines[..i] + [lines[i]]
  {
    assert lines[..i + 1][..i] == lines[..i];
  }

  lemma AddWraps(a: nat, b: nat)
    ensures (a % UINT64 + b) % UINT64 == (a + b) % UINT64
  {}

  // ---- The builder as it is written ----

  class Builder {
    var out: bytes
    var index: bytes
    var dataPos: nat
    ghost var written: seq<Record>

    ghost predicate Valid()
      reads this
    {
      && out == Zeros(HEADER_SIZE) + Data(written)
      && index == EncodeIndex(Entries(written))
      && dataPos == |Data(written)| % UINT64
    }

    constructor ()
      ensures Valid() && written == []
    {
      out, index, dataPos, written := Zeros(HEADER_SIZE), [], 0, [];
    }

    method WriteProblem(r: Record) returns (ok: bool)
      requires Valid()
      modifies this
      ensures Valid()
      ensures ok <==> |r.index| <= 255
      ensures written == if ok then old(written) + [r] else old(written)
    {
      hide LE, EncodeHead, EncodeCases, EncodeIndex, CaseData, CasesAt, Data, Entries, Zeros;
      ok := |r.index| <= 255;
      if ok {
        ghost var data, before, pos := out, index, |Data(written)|;
        WriteHead(r);
        WriteCases(r.cases, pos);
        Appended(written, r, data, before);
        written := written + [r];
      }
    }

    method WriteHead(r: Record)
      modifies this`index
      ensures index == old(index) + EncodeHead(r.contestID % UINT32, r.index, |r.cases|)
    {
      hide LE;
      index := index + LE(r.contestID % UINT32, 4);
      index := index + LE(|r.index|, 1);
      index := index + r.index;
      index := index + LE(|r.cases| % UINT32, 4);
      Regroup5(old(index), LE(r.contestID % UINT32, 4), LE(|r.index|, 1), r.index, LE(|r.cases| % UINT32, 4));
    }

    method WriteCases(cs: seq<TestCase>, ghost pos: nat)
      requires dataPos == pos % UINT64
      modifies this
      ensures written == old(written)
      ensures out == old(out) + CaseData(cs)
      ensures index == old(index) + EncodeCases(CasesAt(cs, pos))
      ensures dataPos == (pos + |CaseData(cs)|) % UINT64
    {
      hide LE, EncodeCases, CaseData, CasesAt, EncodeCase, CaseAt;
      assert EncodeCases(CasesAt(cs[..0], pos)) == [] && CaseData(cs[..0]) == [] by { NoCases(cs, pos); }
      var k := 0;
      while k < |cs|
        invariant k <= |cs| && written == old(written)
        invariant out == old(out) + CaseData(cs[..k])
        invariant index == old(index) + EncodeCases(CasesAt(cs[..k], pos))
        invariant dataPos == (pos + |CaseData(cs[..k])|) % UINT64
      {
        OneMoreCase(cs, pos, k);
        ghost var at := pos + |CaseData(cs[..k])|;
        WriteCase(cs[k], at);
        Regroup4(old(out), CaseData(cs[..k]), cs[k].input, cs[k].output);
        Regroup(old(index), EncodeCases(CasesAt(cs[..k], pos)), EncodeCase(CaseAt(cs[k], at)));
        k := k + 1;
      }
      assert cs[..k] == cs;
    }

    /** One more case, appended to what stands before it in `out` and in `index`. */
    method WriteCase(c: TestCase, ghost pos: nat)
      requires dataPos == pos % UINT64
      modifies this
      ensures written == old(written)
      ensures out == old(out) + c.input + c.output
      ensures index == old(index) + EncodeCase(CaseAt(c, pos))
      ensures dataPos == (pos + |c.input| + |c.output|) % UINT64
    {
      hide LE, EncodeCases;
      var inputOffset := dataPos;
      out := out + c.input;
      AddWraps(pos, |c.input|);
      dataPos := (dataPos + |c.input|) % UINT64;
      var outputOffset := dataPos;
      out := out + c.output;
      AddWraps(pos + |c.input|, |c.output|);
      dataPos := (dataPos + |c.output|) % UINT64;
      index := index + LE(inputOffset, 8);
      index := index + LE(|c.input| % UINT32, 4);
      index := index + LE(outputOffset, 8);
      index := index + LE(|c.output| % UINT32, 4);
      Regroup5(old(index), LE(inputOffset, 8), LE(|c.input| % UINT32, 4), LE(outputOffset, 8), LE(|c.output| % UINT32, 4));
    }

    /** Stops at the first line that cannot be imported. */
    method ImportFile(lines: seq<Line>) returns (count: nat, ok: bool)
      requires Valid()
      modifies this
      ensures Valid()
      ensures ok <==> forall l :: l in lines ==>
                        !l.Malformed?
                        && (l.Rec? && l.record.contestID != 0 && l.record.index != [] ==> |l.record.index| <= 255)
      ensures old(written) <= written
      ensures ok ==> written == old(written) + Records(lines) && count == |UsableLines(lines)| == |Records(lines)|
      ensures ok ==> forall j | 0 <= j < |UsableLines(lines)| ::
                       UsableLines(lines)[j] in UsableLines(lines)
                       && Records(lines)[j] == lines[UsableLines(lines)[j]].record
    {
      hide Valid, Records, UsableLines;
      count := 0;
      var i := 0;
      assert Records(lines[..0]) == [] by { NoLines(lines); }
      while i < |lines|
        invariant i <= |lines| && Valid()
        invariant forall k :: 0 <= k < i ==> !Fails(lines[k])
        invariant written == old(written) + Records(lines[..i]) && count == |Records(lines[..i])|
      {
        var l := lines[i];
        OneMoreLine(lines, i);
        assert l in lines;
        i := i + 1;
        match l {
          case Blank =>
          case Malformed => return count, false;
          case Rec(r) =>
            if r.contestID == 0 || r.index == [] {
              continue;
            }
            var wrote := WriteProblem(r);
            if !wrote {
              assert Fails(l);
              return count, false;
            }
            count := count + 1;
        }
      }
      assert lines[..i] == lines;
      RecordsAt(lines);
      return count, true;
    }
  }

  lemma NoLines(lines: seq<Line>)
    ensures Records(lines[..0]) == []
  {}

  function AllLines(files: seq<seq<Line>>): seq<Line> {
    if files == [] then [] else AllLines(files[..|files| - 1]) + files[|files| - 1]
  }

  lemma {:induction false} RecordsAppend(a: seq<Line>, b: seq<Line>)
    ensures Records(a + b) == Records(a) + Records(b)
  {
    if b == [] {
      assert a + b == a;
    } else {
      assert (a + b)[..|a + b| - 1] == a + b[..|b| - 1];
      RecordsAppend(a, b[..|b| - 1]);
    }
  }

  lemma {:induction false} LineIsThere(files: seq<seq<Line>>, i: nat)
    requires i < |files|
    ensures forall l :: l in files[i] ==> l in AllLines(files)
  {
    if i < |files| - 1 {
      LineIsThere(files[..|files| - 1], i);
    }
  }

  lemma OneMoreFile(files: seq<seq<Line>>, i: nat)
    requires i < |files|
    ensures AllLines(files[..i + 1]) == AllLines(files[..i]) + files[i]
    ensures Records(AllLines(files[..i + 1])) == Records(AllLines(files[..i])) + Records(files[i])
  {
    assert files[..i + 1][..i] == files[..i];
    RecordsAppend(AllLines(files[..i]), files[i]);
  }

  lemma DropFront(a: bytes, b: bytes, c: bytes)
    ensures (a + b + c)[|a|..] == b + c
  {}

  /** Appending the index behind the data and patching the header gives the finished container. */
  lemma Assembled(b: bytes, index: bytes, rs: seq<Record>)
    requires b == Zeros(HEADER_SIZE) + Data(rs) && index == EncodeIndex(Entries(rs))
    ensures |b| >= HEADER_SIZE
    ensures WriteHeader(NewHeader(|Data(rs)| % UINT64, |index| % UINT64)) + (b + index)[HEADER_SIZE..] == File(rs)
  {
    hide WriteHeader, Data, Zeros, Entries, EncodeIndex;
    assert (b + index)[HEADER_SIZE..] == Data(rs) + index by { DropFront(Zeros(HEADER_SIZE), Data(rs), index); }
    Regroup(WriteHeader(NewHeader(|Data(rs)| % UINT64, |index| % UINT64)), Data(rs), index);
  }

  lemma NoFiles(files: seq<seq<Line>>)
    ensures AllLines(files[..0]) == [] && Records([]) == []
  {}

  /**
    Writes the container for all input files, or fails at a bad line and leaves a file
    that begins with an empty header.
  */
  method BuildBinary(files: seq<seq<Line>>) returns (file: bytes, ok: bool)
    ensures ok <==> forall l :: l in AllLines(files) ==>
                      !l.Malformed?
                      && (l.Rec? && l.record.contestID != 0 && l.record.index != [] ==> |l.record.index| <= 255)
    ensures ok ==> file == File(Records(AllLines(files)))
    ensures !ok ==> Zeros(HEADER_SIZE) <= file
  {
    hide Records, UsableLines, Data, Entries, EncodeIndex, WriteHeader, Zeros, AllLines, File;
    var b := new Builder();
    var total, i := 0, 0;
    NoFiles(files);
    while i < |files|
      invariant i <= |files| && b.Valid()
      invariant b.written == Records(AllLines(files[..i]))
      invariant forall l :: l in AllLines(files[..i]) ==> !Fails(l)
    {
      OneMoreFile(files, i);
      var n, good := b.ImportFile(files[i]);
      if !good {
        LineIsThere(files, i);
        return b.out, false;
      }
      total := total + n;
      i := i + 1;
    }
    assert files[..i] == files;
    var out := b.out + b.index;
    var header := NewHeader(b.dataPos, |b.index| % UINT64);
    Assembled(b.out, b.index, b.written);
    file, ok := WriteHeader(header) + out[HEADER_SIZE..], true;
  }
}
